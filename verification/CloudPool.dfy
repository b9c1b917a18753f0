/**
 What the elastic controller knows about the VMs of one pool, and every way it changes. A pool's
 history is a sequence of moves; what holds of every reachable pool is proved of every history.
 */
module CloudPool {
  import opened Listing

  /** The VM sets and counters of a pool. A VM is `stamped` while it has a `ProvisionedAt` entry. */
  datatype Vms = Vms(provisioning: set<string>, stamped: set<string>, owned: set<string>, idle: set<string>,
                     hibernated: set<string>, running: nat, inflight: nat)

  const EMPTY := Vms({}, {}, {}, {}, {}, 0, 0)

  datatype Move =
    | Boot(id: string)                      // Ensure returned a VM
    | Resume(id: string)                    // a hibernated VM is started again
    | Up(id: string)                        // its MOM registered
    | Scrap(id: string)                     // destroyed by the timeout sweep or the job sync
    | Retire(id: string, hibernate: bool)   // an idle node was reclaimed
    | NodeDown
    | MarkIdle(id: string)
    | MarkBusy(id: string)

  function Less(n: nat): nat { if n > 0 then n - 1 else 0 }

  function Apply(v: Vms, m: Move): Vms {
    match m
    case Boot(id) => v.(provisioning := v.provisioning + {id}, stamped := v.stamped + {id}, inflight := v.inflight + 1)
    case Resume(id) => v.(hibernated := v.hibernated - {id}, provisioning := v.provisioning + {id},
                          stamped := v.stamped + {id}, inflight := v.inflight + 1)
    case Up(id) => v.(provisioning := v.provisioning - {id}, owned := v.owned + {id},
                      inflight := Less(v.inflight), running := v.running + 1)
    case Scrap(id) => v.(provisioning := v.provisioning - {id}, stamped := v.stamped - {id},
        inflight := Less(v.inflight))
    case Retire(id, hibernate) => v.(owned := v.owned - {id}, idle := v.idle - {id}, running := Less(v.running),
                                     hibernated := v.hibernated + if hibernate then {id} else {})
    case NodeDown => v.(running := Less(v.running))
    case MarkIdle(id) => v.(idle := v.idle + {id})
    case MarkBusy(id) => v.(idle := v.idle - {id})
  }

  /** What the controller's own tests guarantee when it makes the move. */
  predicate Allowed(v: Vms, m: Move) {
    match m
    case Boot(_) => true
    case Resume(id) => id in v.hibernated
    case Up(id) => id in v.provisioning
    case Scrap(id) => id in v.provisioning + v.stamped
    case Retire(id, _) => id in v.idle
    case NodeDown => true
    case MarkIdle(id) => id in v.owned
    case MarkBusy(id) => true
  }

  /** A VM that Ensure returns is not one the pool already tracks. */
  predicate Fresh(v: Vms, m: Move) {
    m.Boot? ==> m.id !in v.provisioning + v.owned + v.hibernated
  }

  /** The sweep meets a VM that is no longer provisioning. */
  predicate Stray(v: Vms, m: Move) { m.Scrap? && m.id !in v.provisioning }

  function Replay(trace: seq<Move>): Vms {
    if trace == [] then EMPTY else Apply(Replay(trace[..|trace| - 1]), trace[|trace| - 1])
  }

  predicate IsHistory(trace: seq<Move>) {
    trace == [] ||
    (IsHistory(trace[..|trace| - 1]) && Allowed(Replay(trace[..|trace| - 1]), trace[|trace| - 1]))
  }

  predicate AllFresh(trace: seq<Move>) {
    trace == [] ||
    (AllFresh(trace[..|trace| - 1]) && Fresh(Replay(trace[..|trace| - 1]), trace[|trace| - 1]))
  }

  function Strays(trace: seq<Move>): nat {
    if trace == [] then 0
    else Strays(trace[..|trace| - 1]) + if Stray(Replay(trace[..|trace| - 1]), trace[|trace| - 1]) then 1 else 0
  }

  lemma Extend(trace: seq<Move>, m: Move)
    ensures Replay(trace + [m]) == Apply(Replay(trace), m)
    ensures IsHistory(trace + [m]) <==> IsHistory(trace) && Allowed(Replay(trace), m)
    ensures AllFresh(trace + [m]) <==> AllFresh(trace) && Fresh(Replay(trace), m)
    ensures Strays(trace + [m]) == Strays(trace) + if Stray(Replay(trace), m) then 1 else 0
  {
    assert (trace + [m])[..|trace|] == trace;
  }

  // ---------------------------------------------------------------- what every reachable pool satisfies

  /** Holds whatever Ensure returns: idle timers run only for owned nodes and no booting VM escapes the sweep. */
  predicate Tracked(v: Vms) { v.idle <= v.owned && v.provisioning <= v.stamped }

  predicate Disjoint(v: Vms) {
    v.provisioning !! v.owned && v.provisioning !! v.hibernated && v.owned !! v.hibernated
  }

  /** `slack` is how far Inflight may lag behind the booting VMs. */
  predicate Counted(v: Vms, slack: nat) {
    v.running <= |v.owned| && v.inflight <= |v.provisioning| <= v.inflight + slack
  }

  lemma {:induction false} AlwaysTracked(trace: seq<Move>)
    requires IsHistory(trace)
    ensures Tracked(Replay(trace))
  {
    if trace != [] { AlwaysTracked(trace[..|trace| - 1]); }
  }

  lemma DisjointStep(v: Vms, m: Move)
    requires Allowed(v, m) && Fresh(v, m) && Tracked(v) && Disjoint(v)
    ensures Disjoint(Apply(v, m))
  {
  }

  lemma CountedStep(v: Vms, m: Move, slack: nat)
    requires Allowed(v, m) && Fresh(v, m) && Tracked(v) && Disjoint(v) && Counted(v, slack)
    ensures Counted(Apply(v, m), slack + if Stray(v, m) then 1 else 0)
  {
    if !m.NodeDown? {
      SizeWithAndWithout(v.provisioning, m.id);
      SizeWithAndWithout(v.owned, m.id);
    }
  }

  /**
   Every reachable pool, given fresh ids from Ensure: the three VM sets are pairwise disjoint, no more
   nodes run than are owned, and Inflight lags behind the booting VMs by at most the number of times
   the sweep met a VM that had already registered; so they are equal if it never did.
   */
  lemma {:induction false} ReachablePool(trace: seq<Move>)
    requires IsHistory(trace) && AllFresh(trace)
    ensures Disjoint(Replay(trace)) && Counted(Replay(trace), Strays(trace))
    ensures Strays(trace) == 0 ==> Replay(trace).inflight == |Replay(trace).provisioning|
  {
    if trace != [] {
      var before := trace[..|trace| - 1];
      ReachablePool(before);
      AlwaysTracked(before);
      DisjointStep(Replay(before), trace[|trace| - 1]);
      CountedStep(Replay(before), trace[|trace| - 1], Strays(before));
    }
  }

  /** Where the two agree, a scrapped VM parts them exactly if it was not provisioning while others were. */
  lemma ScrapKeepsCountIff(v: Vms, id: string)
    requires v.inflight == |v.provisioning|
    ensures var w := Apply(v, Scrap(id)); w.inflight == |w.provisioning| <==> id in v.provisioning || v.inflight == 0
  {
    SizeWithAndWithout(v.provisioning, id);
  }

  /** A VM that registered keeps its stamp; the sweep destroys it and the counter of another VM pays. */
  lemma SweepMeetsRegistered(a: string, b: string)
    requires a != b
    ensures var t := [Boot(a), Up(a), Boot(b), Scrap(a)];
            IsHistory(t) && AllFresh(t) && Strays(t) == 1
            && a in Replay(t).owned && Replay(t).provisioning == {b} && Replay(t).inflight == 0
  {
    Extend([], Boot(a));
    Extend([Boot(a)], Up(a));
    Extend([Boot(a), Up(a)], Boot(b));
    Extend([Boot(a), Up(a), Boot(b)], Scrap(a));
    assert [] + [Boot(a)] == [Boot(a)];
    assert [Boot(a)] + [Up(a)] == [Boot(a), Up(a)];
    assert [Boot(a), Up(a)] + [Boot(b)] == [Boot(a), Up(a), Boot(b)];
    assert [Boot(a), Up(a), Boot(b)] + [Scrap(a)] == [Boot(a), Up(a), Boot(b), Scrap(a)];
  }

  /** A VM from Ensure keeps the sets apart and the count exact if and only if the pool was not tracking it. */
  lemma BootKeepsIff(v: Vms, id: string)
    requires Disjoint(v) && v.inflight == |v.provisioning|
    ensures var w := Apply(v, Boot(id)); Disjoint(w) && w.inflight == |w.provisioning| <==> Fresh(v, Boot(id))
  {
    SizeWithAndWithout(v.provisioning, id);
    var w := Apply(v, Boot(id));
    assert id in w.provisioning;
  }

  /** Ensure returning a VM that is already owned lets Running pass the owned nodes. */
  lemma StaleIdBreaksCount(a: string)
    ensures var t := [Boot(a), Up(a), Boot(a), Up(a)];
            IsHistory(t) && !AllFresh(t) && Replay(t).running == 2 && Replay(t).owned == {a}
  {
    Extend([], Boot(a));
    Extend([Boot(a)], Up(a));
    Extend([Boot(a), Up(a)], Boot(a));
    Extend([Boot(a), Up(a), Boot(a)], Up(a));
    assert [] + [Boot(a)] == [Boot(a)];
    assert [Boot(a)] + [Up(a)] == [Boot(a), Up(a)];
    assert [Boot(a), Up(a)] + [Boot(a)] == [Boot(a), Up(a), Boot(a)];
    assert [Boot(a), Up(a), Boot(a)] + [Up(a)] == [Boot(a), Up(a), Boot(a), Up(a)];
  }
}
