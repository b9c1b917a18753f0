/** The order in which the scheduler looks at the jobs of a queue. */
module JobOrder {
  import opened Sorting
  import opened Placement

  /** Queue times are on one clock; the zero time stands for none. */
  const ZERO_TIME := -62135596800

  /** The usage of an owner; none recorded counts as zero. */
  function UsageOf(fairUsage: map<string, real>, owner: string): real {
    if owner in fairUsage then fairUsage[owner] else 0.0
  }

  /** What the configured criterion compares, smallest first. An unknown criterion is "fifo". */
  function Key(sortBy: string, fairUsage: map<string, real>, j: Job): real {
    if sortBy == "shortest_job_first" then j.walltime as real
    else if sortBy == "longest_job_first" then -(j.walltime as real)
    else if sortBy == "high_priority_first" then -(j.priority as real)
    else if sortBy == "low_priority_first" then j.priority as real
    else if sortBy == "smallest_memory_first" then j.memReq as real
    else if sortBy == "largest_memory_first" then -(j.memReq as real)
    else if sortBy == "fair_share" then UsageOf(fairUsage, j.owner)
    else j.queueTime as real
  }

  function ByKey(key: Job -> real): (Job, Job) -> bool { (a, b) => key(a) < key(b) }

  function KeyOf(sortBy: string, fairUsage: map<string, real>): Job -> real { j => Key(sortBy, fairUsage, j) }

  ghost predicate Ordered(s: seq<Job>, key: Job -> real) { forall i, j :: 0 <= i < j < |s| ==> key(s[i]) <= key(s[j]) }

  /** What the order means, criterion by criterion, for an earlier and a later job. */
  lemma ShapeOrder(s: seq<Job>, fairUsage: map<string, real>, i: nat, j: nat)
    requires i < j < |s|
    ensures Ordered(s, KeyOf("shortest_job_first", fairUsage)) ==> s[i].walltime <= s[j].walltime
    ensures Ordered(s, KeyOf("longest_job_first", fairUsage)) ==> s[i].walltime >= s[j].walltime
    ensures Ordered(s, KeyOf("smallest_memory_first", fairUsage)) ==> s[i].memReq <= s[j].memReq
    ensures Ordered(s, KeyOf("largest_memory_first", fairUsage)) ==> s[i].memReq >= s[j].memReq
  {
  }

  lemma StandingOrder(s: seq<Job>, fairUsage: map<string, real>, i: nat, j: nat)
    requires i < j < |s|
    ensures Ordered(s, KeyOf("high_priority_first", fairUsage)) ==> s[i].priority >= s[j].priority
    ensures Ordered(s, KeyOf("low_priority_first", fairUsage)) ==> s[i].priority <= s[j].priority
    ensures Ordered(s, KeyOf("fifo", fairUsage)) ==> s[i].queueTime <= s[j].queueTime
  {
  }

  lemma FairOrder(s: seq<Job>, fairUsage: map<string, real>, i: nat, j: nat)
    requires i < j < |s|
    ensures Ordered(s, KeyOf("fair_share", fairUsage)) ==>
            UsageOf(fairUsage, s[i].owner) <= UsageOf(fairUsage, s[j].owner)
  {
  }

  predicate Starving(maxStarve: int, now: int, j: Job) { j.queueTime != ZERO_TIME && j.queueTime < now - maxStarve }

  /** The jobs that starve, or those that do not, in their order. */
  function Those(s: seq<Job>, starving: bool, maxStarve: int, now: int): seq<Job> {
    if s == [] then []
    else
      var m := |s| - 1;
      Those(s[..m], starving, maxStarve, now) + if Starving(maxStarve, now, s[m]) == starving then [s[m]] else []
  }

  lemma {:induction false} ThoseMembers(s: seq<Job>, starving: bool, maxStarve: int, now: int)
    ensures forall j :: j in Those(s, starving, maxStarve, now) <==> j in s && Starving(maxStarve, now, j) == starving
  {
    if s != [] {
      assert s == s[..|s| - 1] + [s[|s| - 1]];
      ThoseMembers(s[..|s| - 1], starving, maxStarve, now);
    }
  }

  lemma {:induction false} ThoseOrdered(s: seq<Job>, starving: bool, maxStarve: int, now: int, key: Job -> real)
    requires Ordered(s, key)
    ensures Ordered(Those(s, starving, maxStarve, now), key)
  {
    if s != [] {
      var before, last := s[..|s| - 1], s[|s| - 1];
      ThoseOrdered(before, starving, maxStarve, now, key);
      ThoseMembers(before, starving, maxStarve, now);
      var t := Those(before, starving, maxStarve, now);
      forall i | 0 <= i < |t| ensures key(t[i]) <= key(last) {
        assert t[i] in t;
        assert t[i] in before;
      }
    }
  }

  lemma {:induction false} ThosePartition(s: seq<Job>, maxStarve: int, now: int)
    ensures multiset(Those(s, true, maxStarve, now)) + multiset(Those(s, false, maxStarve, now)) == multiset(s)
  {
    if s != [] {
      assert s == s[..|s| - 1] + [s[|s| - 1]];
      ThosePartition(s[..|s| - 1], maxStarve, now);
    }
  }

  lemma ByKeyOrders(key: Job -> real)
    ensures StrictWeakOrder(ByKey(key))
  {
  }

  /** `sort.Slice` on a key: a permutation in order; equal elements may come in any order. */
  method SortSlice(jobs: array<Job>, key: Job -> real)
    modifies jobs
    ensures multiset(jobs[..]) == multiset(old(jobs[..])) && Ordered(jobs[..], key)
  {
    var s := Sort(jobs[..], ByKey(key));
    SortMultiset(jobs[..], ByKey(key));
    ByKeyOrders(key);
    SortSorted(jobs[..], ByKey(key));
    CopyInto(jobs, s);
  }

  method CopyInto(jobs: array<Job>, s: seq<Job>)
    requires |s| == jobs.Length
    modifies jobs
    ensures jobs[..] == s
  {
    for i := 0 to |s|
      invariant jobs[..i] == s[..i]
    {
      jobs[i] := s[i];
    }
  }

  /** Splits the jobs into those that starve and those that do not. */
  method Separate(s: seq<Job>, maxStarve: int, now: int) returns (starving: seq<Job>, normal: seq<Job>)
    ensures starving == Those(s, true, maxStarve, now) && normal == Those(s, false, maxStarve, now)
  {
    starving, normal := [], [];
    for i := 0 to |s|
      invariant starving == Those(s[..i], true, maxStarve, now) && normal == Those(s[..i], false, maxStarve, now)
    {
      assert s[..i + 1][..i] == s[..i];
      if Starving(maxStarve, now, s[i]) { starving := starving + [s[i]]; } else { normal := normal + [s[i]]; }
    }
    assert s[..|s|] == s;
  }

  /** The first `n` jobs starve and the others do not; each part is in the order of the criterion. */
  ghost predicate StarvingFirst(s: seq<Job>, n: nat, maxStarve: int, now: int, key: Job -> real) {
    && n <= |s| && Ordered(s[..n], key) && Ordered(s[n..], key)
    && (forall i :: 0 <= i < |s| ==> (Starving(maxStarve, now, s[i]) <==> i < n))
  }

  lemma PartsInOrder(a: seq<Job>, b: seq<Job>, maxStarve: int, now: int, key: Job -> real)
    requires Ordered(a, key) && Ordered(b, key)
    requires (forall j :: j in a ==> Starving(maxStarve, now, j))
             && (forall j :: j in b ==> !Starving(maxStarve, now, j))
    ensures StarvingFirst(a + b, |a|, maxStarve, now, key)
  {
    var s := a + b;
    assert s[..|a|] == a && s[|a|..] == b;
    forall i | 0 <= i < |s| ensures Starving(maxStarve, now, s[i]) <==> i < |a| {
      assert if i < |a| then s[i] in a else s[i] in b;
    }
  }

  /**
   `sortJobs`: the same jobs, ordered by the criterion; with starvation help, all starving jobs come
   before all others and each of the two groups is in that order.
   */
  method SortJobs(jobs: array<Job>, sortBy: string, fairUsage: map<string, real>, help: bool, maxStarve: int, now: int)
    returns (ghost n: nat)
    modifies jobs
    ensures multiset(jobs[..]) == multiset(old(jobs[..]))
    ensures help && maxStarve > 0 ==> StarvingFirst(jobs[..], n, maxStarve, now, KeyOf(sortBy, fairUsage))
    ensures !(help && maxStarve > 0) ==> Ordered(jobs[..], KeyOf(sortBy, fairUsage))
  {
    n := 0;
    SortSlice(jobs, KeyOf(sortBy, fairUsage));
    if help && maxStarve > 0 {
      var starving, normal := Separate(jobs[..], maxStarve, now);
      PromoteStarving(jobs[..], maxStarve, now, KeyOf(sortBy, fairUsage));
      n := |starving|;
      if |starving| > 0 {
        CopyInto(jobs, starving + normal);
      } else {
        assert starving + normal == normal;
        AllNormal(jobs[..], maxStarve, now);
      }
    }
  }

  lemma PromoteStarving(s: seq<Job>, maxStarve: int, now: int, key: Job -> real)
    requires Ordered(s, key)
    ensures var a, b := Those(s, true, maxStarve, now), Those(s, false, maxStarve, now);
            && multiset(a + b) == multiset(s) && |a + b| == |s| && StarvingFirst(a + b, |a|, maxStarve, now, key)
  {
    var a, b := Those(s, true, maxStarve, now), Those(s, false, maxStarve, now);
    ThosePartition(s, maxStarve, now);
    ThoseMembers(s, true, maxStarve, now);
    ThoseMembers(s, false, maxStarve, now);
    ThoseOrdered(s, true, maxStarve, now, key);
    ThoseOrdered(s, false, maxStarve, now, key);
    PartsInOrder(a, b, maxStarve, now, key);
    assert |a + b| == |multiset(a + b)|;
  }

  lemma {:induction false} AllNormal(s: seq<Job>, maxStarve: int, now: int)
    requires Those(s, true, maxStarve, now) == []
    ensures Those(s, false, maxStarve, now) == s
  {
    if s != [] { AllNormal(s[..|s| - 1], maxStarve, now); }
  }
}
