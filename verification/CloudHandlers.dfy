/** The handlers of the Cloud Elastic Controller, each one atomic step on one pool, as they update it. */
module CloudHandlers {
  import opened Decimal
  import opened CloudPool
  import opened CloudController
  import opened Listing

  /** `coalesceCapacityEvents`: merges what is queued into `ev`. */
  method CoalesceCapacityEvents(queue: string, ev: Event, events: seq<Event>) returns (merged: Event)
    ensures merged == CoalescedAll(queue, ev, events)
  {
    merged := ev;
    for i := 0 to |events|
      invariant merged == CoalescedAll(queue, ev, events[..i])
    {
      assert events[..i + 1][..i] == events[..i];
      if Coalesces(queue, events[i]) {
        var sum, e2 := merged.shortfall, events[i].shortfall;
        if e2.nodes > sum.nodes { sum := sum.(nodes := e2.nodes); }
        if e2.cores > sum.cores { sum := sum.(cores := e2.cores); }
        if e2.blocked > sum.blocked { sum := sum.(blocked := e2.blocked); }
        var jobs := merged.jobs;
        for k := 0 to |events[i].jobs|
          invariant jobs == AddNew(merged.jobs, events[i].jobs[..k])
        {
          assert events[i].jobs[..k + 1][..k] == events[i].jobs[..k];
          if events[i].jobs[k] !in jobs { jobs := jobs + [events[i].jobs[k]]; }
        }
        assert events[i].jobs[..|events[i].jobs|] == events[i].jobs;
        merged := merged.(shortfall := sum, jobs := jobs);
      }
    }
    assert events[..|events|] == events;
  }

  class Pool {
    var settings: Settings
    var running: nat
    var inflight: nat
    var provisioning: map<string, string>
    var provisionedAt: map<string, int>
    var owned: set<string>
    var idleSince: map<string, int>
    var hibernated: map<string, int>
    var lastReclaim: map<string, int>
    var cooldownUntil: int
    ghost var trace: seq<Move>

    ghost function Now(): State
      reads this
    {
      State(settings, running, inflight, provisioning, provisionedAt, owned, idleSince, hibernated, lastReclaim,
            cooldownUntil)
    }

    /** The pool is what its history makes of it. */
    ghost predicate Valid()
      reads this
    {
      IsHistory(trace) && View(Now()) == Replay(trace)
    }

    /** So with fresh ids its sets are disjoint and its counters bounded, after any handlers in any order. */
    lemma Sound()
      requires Valid() && AllFresh(trace)
      ensures Tracked(View(Now())) && Disjoint(View(Now())) && Counted(View(Now()), Strays(trace))
      ensures Strays(trace) == 0 ==> inflight == |provisioning.Keys|
    {
      AlwaysTracked(trace);
      ReachablePool(trace);
    }

    /** The pool an event creates; its cooldown is the zero time, long past. */
    constructor (s: Settings, longPast: int)
      ensures Valid() && trace == []
      ensures Now() == State(s, 0, 0, map[], map[], {}, map[], map[], map[], longPast)
    {
      settings := s;
      running, inflight, owned := 0, 0, {};
      provisioning, provisionedAt, idleSince, hibernated, lastReclaim := map[], map[], map[], map[], map[];
      cooldownUntil := longPast;
      trace := [];
    }

    /** `ensurePool` on the pool of the event's queue. */
    method Configure(e: Settings)
      requires Valid()
      modifies this
      ensures Valid() && trace == old(trace)
      ensures Now() == old(Now()).(settings := Merged(old(settings), e))
    {
      settings := Merged(settings, e);
    }

    // ------------------------------------------------------------ nodes up, down, idle

    method NodeUp(n: string)
      requires Valid() && n in provisioning
      modifies this
      ensures Valid() && trace == old(trace) + [Up(n)]
      ensures Now() == UpOne(old(Now()), n)
    {
      UpIsMove(Now(), n);
      Extend(trace, Up(n));
      trace := trace + [Up(n)];
      provisioning, owned := provisioning - {n}, owned + {n};
      inflight, running := Less(inflight), running + 1;
    }

    method RegisterNodesUp(nodes: seq<string>)
      requires Valid()
      modifies this
      ensures Valid() && Now() == UpAll(old(Now()), nodes)
      ensures AllFresh(trace) == old(AllFresh(trace)) && Strays(trace) == old(Strays(trace))
    {
      for i := 0 to |nodes|
        invariant Valid() && Now() == UpAll(old(Now()), nodes[..i])
        invariant AllFresh(trace) == old(AllFresh(trace)) && Strays(trace) == old(Strays(trace))
      {
        assert nodes[..i + 1][..i] == nodes[..i];
        if nodes[i] in provisioning {
          Extend(trace, Up(nodes[i]));
          NodeUp(nodes[i]);
        }
      }
      assert nodes[..|nodes|] == nodes;
    }

    method HandleNodeDown(e: Settings)
      requires Valid()
      modifies this
      ensures Valid() && trace == old(trace) + [NodeDown]
      ensures Now() == old(Now()).(settings := Merged(old(settings), e), running := Minus(old(running), 1))
    {
      Configure(e);
      Extend(trace, NodeDown);
      trace := trace + [NodeDown];
      running := Less(running);
    }

    method SetIdle(n: string, now: int)
      requires Valid() && n in owned
      modifies this
      ensures Valid() && trace == old(trace) + [MarkIdle(n)]
      ensures Now() == old(Now()).(idleSince := old(idleSince)[n := now])
    {
      Extend(trace, MarkIdle(n));
      trace := trace + [MarkIdle(n)];
      idleSince := idleSince[n := now];
    }

    method SetBusy(n: string)
      requires Valid()
      modifies this
      ensures Valid() && trace == old(trace) + [MarkBusy(n)]
      ensures Now() == old(Now()).(idleSince := old(idleSince) - {n})
    {
      Extend(trace, MarkBusy(n));
      trace := trace + [MarkBusy(n)];
      idleSince := idleSince - {n};
    }

    /** `RegisterNodesIdle`, for some order of the owned nodes. */
    method RegisterNodesIdle(idle: seq<string>, now: int) returns (ghost order: seq<string>)
      requires Valid()
      modifies this
      ensures Valid() && Enumerates(order, old(owned)) && Now() == IdleAll(old(Now()), idle, now, order)
      ensures AllFresh(trace) == old(AllFresh(trace)) && Strays(trace) == old(Strays(trace))
    {
      var names := Enumerate(owned);
      order := names;
      for i := 0 to |names|
        invariant Valid() && owned == old(owned) && Now() == IdleAll(old(Now()), idle, now, names[..i])
        invariant AllFresh(trace) == old(AllFresh(trace)) && Strays(trace) == old(Strays(trace))
      {
        assert names[..i + 1][..i] == names[..i];
        assert names[i] in owned;
        if names[i] in idle {
          if names[i] !in idleSince {
            Extend(trace, MarkIdle(names[i]));
            SetIdle(names[i], now);
          }
        } else if names[i] in idleSince {
          Extend(trace, MarkBusy(names[i]));
          SetBusy(names[i]);
        } else {
          MinusAbsent(idleSince, names[i]);
        }
      }
      assert names[..|names|] == names;
    }

    // ------------------------------------------------------------ destroying booting VMs

    method ScrapVm(id: string)
      requires Valid() && (id in provisioning || id in provisionedAt)
      modifies this
      ensures Valid() && trace == old(trace) + [Scrap(id)]
      ensures Now() == ScrapOne(old(Now()), id)
    {
      ScrapIsMove(Now(), id);
      Extend(trace, Scrap(id));
      trace := trace + [Scrap(id)];
      provisioning, provisionedAt := provisioning - {id}, provisionedAt - {id};
      inflight := Less(inflight);
    }

    /** The loop over the VMs to destroy. The counter can come apart only where a VM was no longer booting. */
    method Destroy(stale: seq<string>, reclaims: string -> bool)
      requires Valid() && NoDup(stale)
      requires forall id :: id in stale ==> id in provisioning || id in provisionedAt
      modifies this
      ensures Valid() && Now() == ScrapAll(old(Now()), stale, reclaims)
      ensures AllFresh(trace) == old(AllFresh(trace))
      ensures (forall id :: id in stale ==> id in old(provisioning)) ==> Strays(trace) == old(Strays(trace))
    {
      for i := 0 to |stale|
        invariant Valid() && Now() == ScrapAll(old(Now()), stale[..i], reclaims)
        invariant AllFresh(trace) == old(AllFresh(trace))
        invariant (forall id :: id in stale ==> id in old(provisioning)) ==> Strays(trace) == old(Strays(trace))
      {
        assert stale[..i + 1][..i] == stale[..i];
        if reclaims(stale[i]) {
          StillThere(old(Now()), stale, reclaims, i);
          Extend(trace, Scrap(stale[i]));
          ScrapVm(stale[i]);
        }
      }
      assert stale[..|stale|] == stale;
    }

    /** The booting VMs bound to a job that is no longer there, in some order. */
    method Orphans(alive: seq<string>) returns (stale: seq<string>)
      ensures NoDup(stale) && forall id :: id in stale <==> Orphan(Now(), alive, id)
    {
      stale := Enumerate(set id | id in provisioning && provisioning[id] != "" && provisioning[id] !in alive);
    }

    /** `SyncQueuedJobs`. */
    method SyncQueuedJobs(alive: seq<string>, reclaims: string -> bool) returns (ghost stale: seq<string>)
      requires Valid()
      modifies this
      ensures Valid() && NoDup(stale) && forall id :: id in stale <==> Orphan(old(Now()), alive, id)
      ensures Now() == ScrapAll(old(Now()), stale, reclaims)
      ensures AllFresh(trace) == old(AllFresh(trace)) && Strays(trace) == old(Strays(trace))
    {
      var found := Orphans(alive);
      stale := found;
      Destroy(found, reclaims);
    }

    /** The VMs whose stamp is past the timeout, in some order. */
    method TimedOut(now: int) returns (stale: seq<string>)
      ensures NoDup(stale) && forall id :: id in stale <==> Overdue(Now(), now, id)
    {
      var timeout := Timeout(settings);
      stale := Enumerate(set id | id in provisionedAt && now - provisionedAt[id] >= timeout);
    }

    /** `sweepProvisioningTimeoutLocked`. */
    method SweepProvisioningTimeout(now: int, reclaims: string -> bool) returns (ghost stale: seq<string>)
      requires Valid()
      modifies this
      ensures Valid() && NoDup(stale) && forall id :: id in stale <==> Overdue(old(Now()), now, id)
      ensures Now() == ScrapAll(old(Now()), stale, reclaims)
      ensures AllFresh(trace) == old(AllFresh(trace))
      ensures (forall id :: id in stale ==> id in old(provisioning)) ==> Strays(trace) == old(Strays(trace))
    {
      var found := TimedOut(now);
      stale := found;
      Destroy(found, reclaims);
    }

    // ------------------------------------------------------------ scale-in

    method Release(n: string, now: int)
      requires Valid() && n in idleSince
      modifies this
      ensures Valid() && trace == old(trace) + [Retire(n, settings.reclaim == "hibernate")]
      ensures Now() == Retired(old(Now()), now, n)
    {
      ghost var after := Retired(Now(), now, n);
      RetireIsMove(Now(), now, n);
      Extend(trace, Retire(n, settings.reclaim == "hibernate"));
      trace := trace + [Retire(n, settings.reclaim == "hibernate")];
      owned, idleSince, lastReclaim, running := owned - {n}, idleSince - {n}, lastReclaim - {n}, Less(running);
      hibernated := if settings.reclaim == "hibernate" then hibernated[n := now] else hibernated;
      assert Now() == after;
    }

    /** `reclaimNodeLocked`. */
    method ReclaimNode(n: string, now: int, r: Replies)
      requires Valid() && n in idleSince
      modifies this
      ensures Valid() && Now() == RetireOne(old(Now()), now, r, n)
      ensures AllFresh(trace) == old(AllFresh(trace)) && Strays(trace) == old(Strays(trace))
    {
      if !r.controller {
        lastReclaim := lastReclaim[n := now];
        Extend(trace, MarkBusy(n));
        SetBusy(n);
      } else if !r.drains(n) || !r.deregisters(n) {
        lastReclaim := lastReclaim[n := now];
      } else {
        Extend(trace, Retire(n, settings.reclaim == "hibernate"));
        Release(n, now);
      }
    }

    /** The nodes idle for at least IdleTime, in some order. */
    method IdleLongEnough(now: int) returns (names: seq<string>)
      ensures NoDup(names) && forall n :: n in names <==> n in idleSince && now - idleSince[n] >= settings.idleTime
    {
      names := Enumerate(set n | n in idleSince && now - idleSince[n] >= settings.idleTime);
    }

    /** The candidates of one sweep. */
    method ReclaimAll(names: seq<string>, now: int, r: Replies)
      requires Valid() && NoDup(names) && forall n :: n in names ==> n in idleSince
      modifies this
      ensures Valid() && Now() == RetireAll(old(Now()), now, r, names)
      ensures AllFresh(trace) == old(AllFresh(trace)) && Strays(trace) == old(Strays(trace))
    {
      for i := 0 to |names|
        invariant Valid() && Now() == RetireAll(old(Now()), now, r, names[..i])
        invariant AllFresh(trace) == old(AllFresh(trace)) && Strays(trace) == old(Strays(trace))
      {
        assert names[..i + 1][..i] == names[..i];
        StillIdle(old(Now()), now, r, names, i);
        var d := settings.drainTimeout;
        if !(d > 0 && names[i] in lastReclaim && now - lastReclaim[names[i]] < d) { ReclaimNode(names[i], now, r); }
      }
      assert names[..|names|] == names;
    }

    /** `reclaimIdle` on one pool: the timeout sweep, then scale-in if the pool is above its floor. */
    method ReclaimIdle(now: int, r: Replies, reclaims: string -> bool)
      returns (ghost stale: seq<string>, ghost names: seq<string>)
      requires Valid()
      modifies this
      ensures Valid() && NoDup(stale) && forall id :: id in stale <==> Overdue(old(Now()), now, id)
      ensures AllFresh(trace) == old(AllFresh(trace)) && NoDup(names)
      ensures (forall id :: id in stale ==> id in old(provisioning)) ==> Strays(trace) == old(Strays(trace))
      ensures var swept := ScrapAll(old(Now()), stale, reclaims);
              && Now() == RetireAll(swept, now, r, names)
              && (swept.settings.idleTime <= 0 || swept.running <= swept.settings.minNodes ==> names == [])
              && (swept.settings.idleTime > 0 && swept.running > swept.settings.minNodes ==>
                  forall n :: n in names <==>
                      n in swept.idleSince && now - swept.idleSince[n] >= swept.settings.idleTime)
    {
      stale := SweepProvisioningTimeout(now, reclaims);
      names := [];
      if settings.idleTime > 0 && running > settings.minNodes {
        var found := IdleLongEnough(now);
        names := found;
        ReclaimAll(found, now, r);
      }
    }

    // ------------------------------------------------------------ scale-out

    /** The scan over the hibernated VMs, in some order. */
    method PickHibernated() returns (id: string, ghost order: seq<string>)
      requires hibernated != map[]
      ensures Enumerates(order, hibernated.Keys) && id == Pick(hibernated, order) && id in hibernated
    {
      var names := Enumerate(hibernated.Keys);
      order := names;
      ghost var some :| some in hibernated.Keys;
      assert some in order;
      id := ScanSuspended(hibernated, names);
    }

    method Wake(id: string, job: string, now: int)
      requires Valid() && id in hibernated
      modifies this
      ensures Valid() && trace == old(trace) + [Resume(id)]
      ensures Now() == WakeOne(old(Now()), id, job, now)
    {
      ghost var after := WakeOne(Now(), id, job, now);
      WakeIsMove(Now(), id, job, now);
      Extend(trace, Resume(id));
      trace := trace + [Resume(id)];
      hibernated := hibernated - {id};
      provisioning, provisionedAt, inflight := provisioning[id := job], provisionedAt[id := now], inflight + 1;
      assert Now() == after;
    }

    method ResumeOldest(job: string, now: int) returns (id: string)
      requires Valid() && hibernated != map[]
      modifies this
      ensures Valid() && trace == old(trace) + [Resume(id)] && id in old(hibernated)
      ensures Now() == WakeOne(old(Now()), id, job, now)
      ensures "" !in old(hibernated) ==> Oldest(old(hibernated), id)
      ensures hibernated == old(hibernated) - {id} && provisioning == old(provisioning)[id := job]
    {
      ghost var order;
      id, order := PickHibernated();
      OldestIfAllNamed(hibernated, order);
      Wake(id, job, now);
    }

    /** The resume loop. */
    method ResumeHibernated(need: nat, jobs: seq<string>, now: int) returns (woken: seq<string>)
      requires Valid()
      modifies this
      ensures Valid() && Now() == WakeAll(old(Now()), woken, jobs, now) && trace == old(trace) + Resumes(woken)
      ensures InTurn(old(hibernated), woken)
      ensures |woken| == if need <= |old(hibernated)| then need else |old(hibernated)|
    {
      woken := [];
      ghost var start, past, hib := Now(), trace, hibernated;
      assert past + Resumes([]) == past;
      while |woken| < need && |hibernated| > 0
        invariant Valid() && Now() == WakeAll(start, woken, jobs, now) && trace == past + Resumes(woken)
        invariant |woken| <= need && InTurn(hib, woken)
        invariant hibernated == Without(hib, woken) && |hibernated| == |hib| - |woken|
        decreases |hibernated|
      {
        var id := ResumeOldest(JobFor(jobs, |woken|), now);
        NextInTurn(hib, woken, id);
        NextWoken(start, past, woken, jobs, now, id);
        woken := woken + [id];
      }
    }

    method Bind(id: string, job: string, at: int)
      requires Valid()
      modifies this
      ensures Valid() && trace == old(trace) + [Boot(id)]
      ensures Now() == BindOne(old(Now()), id, job, at)
    {
      BindIsMove(Now(), id, job, at);
      Extend(trace, Boot(id));
      trace := trace + [Boot(id)];
      provisioning, provisionedAt, inflight := provisioning[id := job], provisionedAt[id := at], inflight + 1;
    }

    /** The loop over the VMs from Ensure. Inflight grows per VM here, in one go there; nothing sees the difference. */
    method BindNew(vms: seq<string>, jobs: seq<string>, bootAt: nat -> int)
      requires Valid()
      modifies this
      ensures Valid() && Now() == BindAll(old(Now()), vms, jobs, bootAt)
      ensures trace == old(trace) + Boots(vms)
    {
      assert old(trace) + Boots([]) == old(trace);
      for i := 0 to |vms|
        invariant Valid() && Now() == BindAll(old(Now()), vms[..i], jobs, bootAt)
        invariant trace == old(trace) + Boots(vms[..i])
      {
        assert vms[..i + 1][..i] == vms[..i];
        Bind(vms[i], JobFor(jobs, i), bootAt(i));
      }
      assert vms[..|vms|] == vms;
    }

    method CoolDown(now: int, fallback: int)
      requires Valid()
      modifies this
      ensures Valid() && trace == old(trace) && hibernated == old(hibernated)
              && Now() == Cooled(old(Now()), now, fallback)
    {
      cooldownUntil := now + if settings.cooldown <= 0 then fallback else settings.cooldown;
    }

    /** From the decision to scale out on. */
    method ScaleOut(need: nat, jobs: seq<string>, now: int, fallback: int, ensure: nat -> Option<seq<string>>,
                    bootAt: nat -> int) returns (woken: seq<string>)
      requires Valid()
      modifies this
      ensures Valid() && trace == old(trace) + Resumes(woken) + Boots(Reply(ensure, need - |woken|))
      ensures Scaled(old(Now()), need, jobs, now, fallback, ensure, bootAt, woken, Now())
    {
      CoolDown(now, fallback);
      woken := ResumeHibernated(need, jobs, now);
      BindNew(Reply(ensure, need - |woken|), jobs, bootAt);
    }

    /** Scales out unless the pool is cooling down or already at its target. */
    method Grow(ev: Event, now: int, fallback: int, ensure: nat -> Option<seq<string>>, bootAt: nat -> int)
      returns (woken: seq<string>, ghost vms: seq<string>)
      requires Valid()
      modifies this
      ensures Valid() && ScaledOut(old(Now()), ev, now, fallback, ensure, bootAt, woken, Now())
      ensures trace == old(trace) + Resumes(woken) + Boots(vms) && Answered(ensure, vms)
    {
      var need := DesiredSize(settings, running, ev.shortfall.nodes) - (running + inflight);
      if now < cooldownUntil || need <= 0 {
        NoMoves(trace);
        return [], [];
      }
      woken := ScaleOut(need, ev.jobs, now, fallback, ensure, bootAt);
      vms := Reply(ensure, need - |woken|);
      ReplyIsAnswer(ensure, need - |woken|);
    }

    /**
     `handleCapacity`. The clock, the provider's answers and the queued events are inputs; `ensure` is
     None where the provider fails.
     */
    method HandleCapacity(ev: Event, events: seq<Event>, now: int, fallback: int,
                          ensure: nat -> Option<seq<string>>, bootAt: nat -> int)
      returns (merged: Event, woken: seq<string>, ghost vms: seq<string>)
      requires Valid()
      modifies this
      ensures Valid() && merged == CoalescedAll(ev.queue, ev, events)
      ensures ScaledOut(old(Now()).(settings := Merged(old(settings), ev.settings)), merged, now, fallback, ensure,
                        bootAt, woken, Now())
      ensures trace == old(trace) + Resumes(woken) + Boots(vms) && Answered(ensure, vms)
    {
      Configure(ev.settings);
      merged := CoalesceCapacityEvents(ev.queue, ev, events);
      woken, vms := Grow(merged, now, fallback, ensure, bootAt);
    }
  }

  /** The first of the longest suspended VMs, with "" for none yet. */
  method ScanSuspended(hib: map<string, int>, names: seq<string>) returns (id: string)
    requires forall k :: k in names ==> k in hib
    ensures id == Pick(hib, names)
  {
    id := "";
    var suspendAt := 0;
    for i := 0 to |names|
      invariant forall k :: k in names[..i] ==> k in hib
      invariant id == Pick(hib, names[..i]) && (id != "" ==> suspendAt == hib[id])
    {
      assert names[..i + 1][..i] == names[..i];
      assert names[i] in hib;
      var t := hib[names[i]];
      if id == "" || t < suspendAt { id, suspendAt := names[i], t; }
    }
    assert names[..|names|] == names;
  }

  lemma NoMoves(past: seq<Move>)
    ensures past == past + Resumes([]) + Boots([])
  {
  }

  lemma MinusAbsent<K, V>(m: map<K, V>, x: K)
    requires x !in m
    ensures m - {x} == m
  {
  }

  function Boots(vms: seq<string>): seq<Move> {
    if vms == [] then [] else Boots(vms[..|vms| - 1]) + [Boot(vms[|vms| - 1])]
  }

  lemma StillThere(s: State, stale: seq<string>, reclaims: string -> bool, i: nat)
    requires NoDup(stale) && i < |stale|
    ensures var t, id := ScrapAll(s, stale[..i], reclaims), stale[i];
            (id in t.provisioning <==> id in s.provisioning) && (id in t.provisionedAt <==> id in s.provisionedAt)
  {
    ScrapAllExact(s, stale[..i], reclaims);
    ChosenMembers(stale[..i], reclaims, stale[i]);
  }

  lemma {:induction false} StillIdle(s: State, now: int, r: Replies, names: seq<string>, i: nat)
    requires NoDup(names) && i < |names| && names[i] in s.idleSince
    ensures names[i] in RetireAll(s, now, r, names[..i]).idleSince
  {
    IdleElsewhere(s, now, r, names[..i], names[i]);
  }

  lemma {:induction false} IdleElsewhere(s: State, now: int, r: Replies, names: seq<string>, n: string)
    requires n !in names && n in s.idleSince
    ensures n in RetireAll(s, now, r, names).idleSince
  {
    if names != [] { IdleElsewhere(s, now, r, names[..|names| - 1], n); }
  }

  lemma OldestIfAllNamed(hib: map<string, int>, order: seq<string>)
    requires hib != map[] && Enumerates(order, hib.Keys)
    ensures "" !in hib ==> Oldest(hib, Pick(hib, order))
  {
    if "" !in hib {
      var some :| some in hib.Keys;
      var k := OldestExists(hib, hib.Keys);
      assert k != "" && Oldest(hib, k);
      PickOldestIfNamed(hib, order);
    }
  }

  function Resumes(woken: seq<string>): seq<Move> {
    if woken == [] then [] else Resumes(woken[..|woken| - 1]) + [Resume(woken[|woken| - 1])]
  }

  lemma NextInTurn(hib: map<string, int>, woken: seq<string>, id: string)
    requires var left := Without(hib, woken); id in left && ("" !in left ==> Oldest(left, id))
    requires InTurn(hib, woken)
    ensures InTurn(hib, woken + [id]) && Without(hib, woken + [id]) == Without(hib, woken) - {id}
    ensures |Without(hib, woken + [id])| == |hib| - |woken + [id]|
  {
    assert (woken + [id])[..|woken|] == woken;
    WithoutShrinks(hib, woken + [id]);
  }

  lemma NextWoken(s: State, past: seq<Move>, woken: seq<string>, jobs: seq<string>, now: int, id: string)
    ensures WakeAll(s, woken + [id], jobs, now) == WakeOne(WakeAll(s, woken, jobs, now), id, JobFor(jobs, |woken|), now)
    ensures past + Resumes(woken) + [Resume(id)] == past + Resumes(woken + [id])
  {
    assert (woken + [id])[..|woken|] == woken;
  }

  // ---------------------------------------------------------------- what a capacity event adds to the history

  /** All VMs the pool knows of. */
  function Known(v: Vms): set<string> { v.provisioning + v.owned + v.hibernated }

  ghost predicate Unused(v: Vms, vms: seq<string>) { NoDup(vms) && forall id :: id in vms ==> id !in Known(v) }

  lemma {:induction false} BootsAdded(trace: seq<Move>, vms: seq<string>)
    ensures Strays(trace + Boots(vms)) == Strays(trace)
    ensures forall id :: id in Known(Replay(trace + Boots(vms))) ==> id in Known(Replay(trace)) || id in vms
  {
    if vms == [] {
      assert trace + Boots(vms) == trace;
    } else {
      var m := |vms| - 1;
      BootsAdded(trace, vms[..m]);
      var before := trace + Boots(vms[..m]);
      assert trace + Boots(vms) == before + [Boot(vms[m])];
      Extend(before, Boot(vms[m]));
    }
  }

  lemma {:induction false} BootsFresh(trace: seq<Move>, vms: seq<string>)
    requires AllFresh(trace) && Unused(Replay(trace), vms)
    ensures AllFresh(trace + Boots(vms))
  {
    if vms == [] {
      assert trace + Boots(vms) == trace;
    } else {
      var m := |vms| - 1;
      NoDupPrefix(vms);
      BootsFresh(trace, vms[..m]);
      BootsAdded(trace, vms[..m]);
      var before := trace + Boots(vms[..m]);
      assert trace + Boots(vms) == before + [Boot(vms[m])];
      Extend(before, Boot(vms[m]));
    }
  }

  lemma {:induction false} ResumesAdded(trace: seq<Move>, woken: seq<string>)
    ensures Strays(trace + Resumes(woken)) == Strays(trace)
    ensures AllFresh(trace + Resumes(woken)) == AllFresh(trace)
    ensures IsHistory(trace + Resumes(woken)) ==> Known(Replay(trace + Resumes(woken))) == Known(Replay(trace))
  {
    if woken == [] {
      assert trace + Resumes(woken) == trace;
    } else {
      var m := |woken| - 1;
      ResumesAdded(trace, woken[..m]);
      var before := trace + Resumes(woken[..m]);
      assert trace + Resumes(woken) == before + [Resume(woken[m])];
      Extend(before, Resume(woken[m]));
    }
  }

  /** A capacity event adds no stray, and no stale id unless Ensure returned one the pool knew or one twice. */
  lemma CapacityHistory(trace: seq<Move>, woken: seq<string>, vms: seq<string>)
    requires IsHistory(trace + Resumes(woken))
    ensures Strays(trace + Resumes(woken) + Boots(vms)) == Strays(trace)
    ensures AllFresh(trace) && Unused(Replay(trace), vms) ==> AllFresh(trace + Resumes(woken) + Boots(vms))
  {
    ResumesAdded(trace, woken);
    BootsAdded(trace + Resumes(woken), vms);
    if AllFresh(trace) && Unused(Replay(trace), vms) { BootsFresh(trace + Resumes(woken), vms); }
  }
}
