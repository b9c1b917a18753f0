/**
 The order in which a cycle considers jobs: queue by queue (modes "flat" and "by_queue", which run
 the same loop) or one job per queue in turn (mode "round_robin").
 */
module JobIterator {
  import opened Decimal
  import opened Strings
  import opened Listing
  import opened Placement

  /** A job as (queue index, index within the queue). */
  type Pos = (nat, nat)

  predicate IsRouteQueue(q: Queue) {
    var t := ToLower(TrimSpace(q.kind));
    t == "route" || t == "r"
  }

  /** The scheduler takes jobs only from enabled, started queues that do not route. */
  predicate Eligible(q: Queue) { q.enabled && q.started && !IsRouteQueue(q) }

  /** Jobs sit only in queues that are considered at all. */
  predicate OnlyEligibleHold(queues: seq<Queue>) {
    forall i :: 0 <= i < |queues| && !Eligible(queues[i]) ==> queues[i].jobs == []
  }

  /** Every job of an eligible queue. */
  ghost function AllJobs(queues: seq<Queue>): set<Pos> {
    set i, j | 0 <= i < |queues| && 0 <= j < |queues[i].jobs| && Eligible(queues[i]) :: (i, j)
  }

  /** The jobs of eligible queues that lie at or beyond the reading positions `next`. */
  ghost function Unread(queues: seq<Queue>, next: seq<nat>): set<Pos>
    requires |next| == |queues|
  {
    set p | p in AllJobs(queues) && next[p.0] <= p.1
  }

  // ---------------------------------------------------------------- round-robin arithmetic

  /** How often queue `i` of `n` has been visited when the visit counter stands at `q`. */
  function Visits(i: nat, q: nat, n: nat): nat
    requires n > 0
  {
    q / n + if i < q % n then 1 else 0
  }

  lemma DivModNext(q: nat, n: nat)
    requires n > 0
    ensures q % n + 1 < n ==> (q + 1) % n == q % n + 1 && (q + 1) / n == q / n
    ensures q % n + 1 == n ==> (q + 1) % n == 0 && (q + 1) / n == q / n + 1
  {
    var d, m := q / n, q % n;
    assert q == d * n + m;
    if m + 1 == n {
      assert q + 1 == (d + 1) * n;
      DivModUnique(q + 1, n, d + 1, 0);
    } else {
      DivModUnique(q + 1, n, d, m + 1);
    }
  }

  lemma DivModUnique(q: nat, n: nat, d: nat, m: nat)
    requires m < n && q == d * n + m
    ensures q / n == d && q % n == m
  {
    var e := q / n;
    assert q == e * n + q % n;
    if e < d { MultiplesApart(e, d, n); }
    if e > d { MultiplesApart(d, e, n); }
  }

  /** One more visit goes to queue `q % n` and to no other. */
  lemma VisitsNext(i: nat, q: nat, n: nat)
    requires i < n
    ensures Visits(i, q + 1, n) == Visits(i, q, n) + if i == q % n then 1 else 0
  {
    DivModNext(q, n);
  }

  /** The queue visited `k` visits after the counter stood at `q`. */
  function Slot(q: nat, k: nat, n: nat): nat
    requires n > 0
  {
    (q + k) % n
  }

  /** Any `n` visits in a row reach every queue. */
  lemma EveryQueueVisited(q: nat, n: nat, i: nat) returns (k: nat)
    requires i < n
    ensures k < n && Slot(q, k, n) == i
  {
    var d, m := q / n, q % n;
    assert q == d * n + m;
    if i >= m {
      k := i - m;
      DivModUnique(q + k, n, d, i);
    } else {
      k := i + n - m;
      assert (d + 1) * n == d * n + n;
      DivModUnique(q + k, n, d + 1, i);
    }
  }

  function Min(a: nat, b: nat): nat { if a < b then a else b }

  // ---------------------------------------------------------------- the iterator

  class JobIterator {
    const queues: seq<Queue>
    const roundRobin: bool
    var qIdx: nat
    var jIdx: seq<nat>
    /** Jobs flagged `CanNotRun`. */
    var cannotRun: set<Pos>

    constructor (queues: seq<Queue>, roundRobin: bool)
      ensures Valid() && this.queues == queues && this.roundRobin == roundRobin
      ensures cannotRun == {} && Remaining() == AllJobs(queues)
    {
      this.queues := queues;
      this.roundRobin := roundRobin;
      qIdx := 0;
      jIdx := seq(|queues|, _ => 0);
      cannotRun := {};
    }

    /**
     In queue order, everything before the current queue has been read. In round-robin order, the
     reading position of every eligible queue is exactly the number of its visits, up to its length.
     An ineligible queue is never read.
     */
    ghost predicate Valid()
      reads this
    {
      && |jIdx| == |queues|
      && (forall i :: 0 <= i < |queues| ==> jIdx[i] <= |queues[i].jobs|)
      && (forall i :: 0 <= i < |queues| && !Eligible(queues[i]) ==> jIdx[i] == 0)
      && (!roundRobin ==> qIdx <= |queues|)
      && (!roundRobin ==>
            forall i :: 0 <= i < qIdx && Eligible(queues[i]) ==> jIdx[i] == |queues[i].jobs|)
      && (roundRobin && |queues| > 0 ==>
            forall i :: 0 <= i < |queues| && Eligible(queues[i]) ==>
              jIdx[i] == Min(|queues[i].jobs|, Visits(i, qIdx, |queues|)))
    }

    /** The jobs not read yet. */
    ghost function Remaining(): set<Pos>
      requires Valid()
      reads this
    {
      Unread(queues, jIdx)
    }

    /** Reads one job of queue `i`. */
    method Advance(i: nat)
      requires |jIdx| == |queues| && i < |queues| && jIdx[i] < |queues[i].jobs| && Eligible(queues[i])
      modifies this`jIdx
      ensures jIdx == old(jIdx)[i := old(jIdx[i]) + 1]
      ensures (i, old(jIdx[i])) in Unread(queues, old(jIdx))
      ensures Unread(queues, jIdx) == Unread(queues, old(jIdx)) - {(i, old(jIdx[i]))}
    {
      ghost var p: Pos := (i, jIdx[i]);
      assert p in AllJobs(queues);
      jIdx := jIdx[i := jIdx[i] + 1];
    }

    /** `nextByQueue` and `nextFlat`: the first unread job in queue order that is not flagged. */
    method NextInOrder() returns (r: Option<Pos>)
      requires Valid() && !roundRobin
      modifies this`qIdx, this`jIdx
      ensures Valid()
      ensures Remaining() <= old(Remaining())
              && (old(Remaining()) - Remaining()) <= cannotRun + (if r.Some? then {r.value} else {})
      ensures r.None? ==> Remaining() == {}
      ensures r.Some? ==> r.value in old(Remaining()) - Remaining() - cannotRun
      ensures r.Some? ==> forall p :: p in Remaining() ==> p.0 > r.value.0 || (p.0 == r.value.0 && p.1 > r.value.1)
    {
      while qIdx < |queues|
        invariant Valid()
        invariant Remaining() <= old(Remaining()) && old(Remaining()) - Remaining() <= cannotRun
        decreases |queues| - qIdx, if qIdx < |queues| then |queues[qIdx].jobs| - jIdx[qIdx] else 0
      {
        var q := queues[qIdx];
        if !Eligible(q) {
          qIdx := qIdx + 1;
          continue;
        }
        var j := jIdx[qIdx];
        if j < |q.jobs| {
          Advance(qIdx);
          if (qIdx, j) !in cannotRun { return Some((qIdx, j)); }
          continue;
        }
        qIdx := qIdx + 1;
      }
      return None;
    }

    /** One visit of `nextRoundRobin`: the queue at the counter gives its next job, if it has one that may run. */
    method Visit() returns (r: Option<Pos>)
      requires Valid() && roundRobin && |queues| > 0
      modifies this`qIdx, this`jIdx
      ensures Valid() && qIdx == old(qIdx) + 1
      ensures Remaining() <= old(Remaining())
      ensures old(Remaining()) - Remaining() <= cannotRun + (if r.Some? then {r.value} else {})
      ensures r.Some? ==> r.value in old(Remaining()) - Remaining() - cannotRun && r.value.0 == old(qIdx) % |queues|
      ensures var i := old(qIdx) % |queues|;
              Eligible(queues[i]) && old(jIdx[i]) < |queues[i].jobs| ==> Remaining() != old(Remaining())
      ensures Remaining() == old(Remaining()) ==> jIdx == old(jIdx)
    {
      var n := |queues|;
      var i := qIdx % n;
      forall k | 0 <= k < n { VisitsNext(k, qIdx, n); }
      qIdx := qIdx + 1;
      var q := queues[i];
      if !Eligible(q) { return None; }
      var j := jIdx[i];
      if j < |q.jobs| {
        Advance(i);
        if (i, j) !in cannotRun { return Some((i, j)); }
      }
      return None;
    }

    /** `allDone`: no queue, eligible or not, holds a job beyond its reading position. */
    method AllDone() returns (done: bool)
      requires Valid()
      ensures done <==> forall i :: 0 <= i < |queues| ==> jIdx[i] >= |queues[i].jobs|
    {
      for i := 0 to |queues|
        invariant forall k :: 0 <= k < i ==> jIdx[k] >= |queues[k].jobs|
      {
        if jIdx[i] < |queues[i].jobs| { return false; }
      }
      return true;
    }

    /** Nothing is left to return, yet an ineligible queue holds jobs, which no visit reads. */
    ghost predicate Stuck()
      requires Valid()
      reads this
    {
      Remaining() <= cannotRun && !OnlyEligibleHold(queues)
    }

    /** Tells whether the next call would not return. The code has no such test. */
    method Hangs() returns (hangs: bool)
      requires Valid()
      ensures hangs <==> roundRobin && Stuck()
    {
      var allFlagged := forall i | 0 <= i < |queues| && Eligible(queues[i]) ::
                          forall j | jIdx[i] <= j < |queues[i].jobs| :: (i, j) in cannotRun;
      assert allFlagged <==> Remaining() <= cannotRun by {
        if allFlagged {
          forall p | p in Remaining() ensures p in cannotRun { assert p == (p.0, p.1); }
        } else {
          var i, j :| 0 <= i < |queues| && Eligible(queues[i]) && jIdx[i] <= j < |queues[i].jobs|
              && (i, j) !in cannotRun;
          assert (i, j) in Remaining();
        }
      }
      hangs := roundRobin && allFlagged && !OnlyEligibleHold(queues);
    }

    /** One round of visits, up to the first job found. */
    method Round() returns (r: Option<Pos>)
      requires Valid() && roundRobin && |queues| > 0
      modifies this`qIdx, this`jIdx
      ensures Valid()
      ensures Remaining() <= old(Remaining())
      ensures old(Remaining()) - Remaining() <= cannotRun + (if r.Some? then {r.value} else {})
      ensures r.Some? ==> r.value in old(Remaining()) - Remaining() - cannotRun
      ensures r.None? && Remaining() == old(Remaining()) ==> Remaining() == {}
    {
      ghost var q0, n, all, start := qIdx, |queues|, Remaining(), jIdx;
      ghost var left := all;
      for attempts := 0 to |queues|
        invariant Valid() && qIdx == q0 + attempts && left == Remaining()
        invariant left <= all && all - left <= cannotRun
        invariant left == all ==> jIdx == start && forall k :: 0 <= k < attempts ==> Spent(start, Slot(q0, k, n))
      {
        r := Visit();
        left := Remaining();
        if r.Some? { return; }
        assert left == all ==> Spent(start, Slot(q0, attempts, n));
      }
      if left == all { AllSpent(start, q0); }
      return None;
    }

    /** Queue `i` has nothing to give at the reading positions `next`. */
    ghost predicate Spent(next: seq<nat>, i: nat) {
      i < |queues| && i < |next| && (Eligible(queues[i]) ==> next[i] >= |queues[i].jobs|)
    }

    lemma AllSpent(next: seq<nat>, q0: nat)
      requires |next| == |queues| && |queues| > 0
      requires forall k :: 0 <= k < |queues| ==> Spent(next, Slot(q0, k, |queues|))
      ensures Unread(queues, next) == {}
    {
      forall p | p in AllJobs(queues) ensures p !in Unread(queues, next) {
        var k := EveryQueueVisited(q0, |queues|, p.0);
        assert Spent(next, Slot(q0, k, |queues|));
      }
    }

    lemma StillSomething(before: set<Pos>, next: seq<nat>, i: nat)
      requires |next| == |queues| && i < |queues| && next[i] < |queues[i].jobs|
      requires before - Unread(queues, next) <= cannotRun
      requires Eligible(queues[i]) || !(before <= cannotRun)
      ensures Unread(queues, next) != {}
    {
      if Eligible(queues[i]) {
        assert (i, next[i]) in Unread(queues, next);
      } else {
        var p :| p in before && p !in cannotRun;
        assert p in Unread(queues, next);
      }
    }

    lemma StaysUnstuck(before: set<Pos>, after: set<Pos>)
      requires before - after <= cannotRun && !(before <= cannotRun)
      ensures !(after <= cannotRun)
    {
      var p :| p in before && p !in cannotRun;
      assert p in after;
    }

    /**
     One round and the end test. If the iterator is stuck, the round finds nothing, the end test fails and
     the iterator is still stuck; if not, a round that does not end the search has read a flagged job.
     */
    method RoundOrDone() returns (r: Option<Pos>, stop: bool)
      requires Valid() && roundRobin && |queues| > 0
      modifies this`qIdx, this`jIdx
      ensures Valid()
      ensures Remaining() <= old(Remaining())
      ensures old(Remaining()) - Remaining() <= cannotRun + (if r.Some? then {r.value} else {})
      ensures stop && r.None? ==> Remaining() == {}
      ensures r.Some? ==> stop && r.value in old(Remaining()) - Remaining() - cannotRun
      ensures old(Stuck()) ==> r.None? && !stop && Stuck()
      ensures !old(Stuck()) && !stop ==> Remaining() != old(Remaining()) && !Stuck()
    {
      r := Round();
      if r.Some? { return r, true; }
      stop := AllDone();
      ghost var before := old(Remaining());
      if old(Stuck()) {
        ghost var k :| 0 <= k < |queues| && !Eligible(queues[k]) && queues[k].jobs != [];
        assert jIdx[k] < |queues[k].jobs|;
      } else if !stop {
        ghost var i :| 0 <= i < |queues| && jIdx[i] < |queues[i].jobs|;
        assert Eligible(queues[i]) || !(before <= cannotRun);
        StillSomething(before, jIdx, i);
        if !(before <= cannotRun) { StaysUnstuck(before, Remaining()); }
      }
    }

    /** `nextRoundRobin`. It comes to an end whenever the iterator is not stuck. */
    method NextRoundRobin() returns (r: Option<Pos>)
      requires Valid() && roundRobin && !Stuck()
      modifies this`qIdx, this`jIdx
      ensures Valid()
      ensures Remaining() <= old(Remaining())
      ensures old(Remaining()) - Remaining() <= cannotRun + (if r.Some? then {r.value} else {})
      ensures r.None? ==> Remaining() == {}
      ensures r.Some? ==> r.value in old(Remaining()) - Remaining() - cannotRun
      decreases Remaining()
    {
      if |queues| == 0 { return None; }
      var stop;
      r, stop := RoundOrDone();
      if !stop { r := NextRoundRobin(); }
    }

    /**
     `nextRoundRobin` cut off after `depth` calls of itself. A stuck iterator has not returned at any depth;
     any other has returned once the depth exceeds the jobs that remain.
     */
    method NextWithin(depth: nat) returns (r: Option<Pos>, returned: bool)
      requires Valid() && roundRobin
      modifies this`qIdx, this`jIdx
      ensures Valid()
      ensures old(Stuck()) ==> !returned && Stuck()
      ensures !old(Stuck()) && depth > |old(Remaining())| ==> returned
      ensures returned && r.None? ==> Remaining() == {}
      ensures returned && r.Some? ==> r.value in old(Remaining()) - Remaining() - cannotRun
      decreases depth
    {
      if |queues| == 0 { return None, true; }
      if depth == 0 { return None, false; }
      r, returned := RoundOrDone();
      if !returned {
        if !old(Stuck()) { SmallerSet(Remaining(), old(Remaining())); }
        r, returned := NextWithin(depth - 1);
      }
    }

    /** The jobs taken from any two unexhausted queues differ by at most one. */
    lemma Fair(a: nat, b: nat)
      requires Valid() && roundRobin && a < |queues| && b < |queues|
      requires Eligible(queues[a]) && Eligible(queues[b])
      requires jIdx[a] < |queues[a].jobs| && jIdx[b] < |queues[b].jobs|
      ensures jIdx[a] <= jIdx[b] + 1 && jIdx[b] <= jIdx[a] + 1
    {
    }

    /** Sets `CanNotRun` on a job. */
    method Flag(p: Pos)
      requires Valid()
      modifies this`cannotRun
      ensures Valid() && Remaining() == old(Remaining()) && cannotRun == old(cannotRun) + {p}
    {
      cannotRun := cannotRun + {p};
    }

    /** `next`: each call returns a job not returned before, until every job of an eligible queue has been read. */
    method Next() returns (r: Option<Pos>)
      requires Valid() && !(roundRobin && Stuck())
      modifies this`qIdx, this`jIdx
      ensures Valid()
      ensures Remaining() <= old(Remaining())
      ensures old(Remaining()) - Remaining() <= cannotRun + (if r.Some? then {r.value} else {})
      ensures r.None? ==> Remaining() == {}
      ensures r.Some? ==> r.value in old(Remaining()) - Remaining() - cannotRun
    {
      if roundRobin { r := NextRoundRobin(); } else { r := NextInOrder(); }
    }
  }

  lemma SmallerSet(a: set<Pos>, b: set<Pos>)
    requires a <= b && a != b
    ensures |a| < |b|
  {
    var x :| x in b && x !in a;
    SubsetSize(a, b - {x});
  }

  /** One route queue that holds a job: round-robin does not return at any depth. */
  method RouteQueueHangs(job: Job, depth: nat) returns (it: JobIterator, returned: bool)
    ensures it.Valid() && it.Stuck() && it.Remaining() == {} && !returned
  {
    var q := Queue("routing", "Route", true, true, [job], "", [], false, "", 0, 0);
    it := new JobIterator([q], true);
    assert TrimSpace("Route") == "Route" by { TrimNothing("Route"); }
    assert ToLower("Route") == "route";
    assert !Eligible(it.queues[0]);
    var found;
    found, returned := it.NextWithin(depth);
  }
}
