/**
 What each handler of the Cloud Elastic Controller makes of a pool, as functions of the pool's fields,
 and what those functions guarantee. Ranging over a Go map is an arbitrary enumeration of its keys.
 */
module CloudController {
  import opened Decimal
  import opened CloudPool
  import opened Listing

  const DEFAULT_PROVISION_TIMEOUT := 600   // seconds

  /** Zero or "" in an event leaves the pool's setting as it is. */
  datatype Settings = Settings(minNodes: int, maxNodes: int, idleTime: int, provisionTimeout: int, reclaim: string,
                               cooldown: int, headroom: int, drainTimeout: int)

  datatype Shortfall = Shortfall(cores: int, nodes: int, blocked: int)

  datatype Event = Event(capacity: bool, queue: string, shortfall: Shortfall, jobs: seq<string>, settings: Settings)

  /** The fields of a pool. */
  datatype State = State(settings: Settings, running: nat, inflight: nat,
                         provisioning: map<string, string>, provisionedAt: map<string, int>, owned: set<string>,
                         idleSince: map<string, int>, hibernated: map<string, int>, lastReclaim: map<string, int>,
                         cooldownUntil: int)

  function View(s: State): Vms {
    Vms(s.provisioning.Keys, s.provisionedAt.Keys, s.owned, s.idleSince.Keys, s.hibernated.Keys, s.running, s.inflight)
  }

  function Max(a: int, b: int): int { if a > b then a else b }

  /** The members of a list that satisfy `p`. */
  function Chosen(ids: seq<string>, p: string -> bool): set<string> {
    if ids == [] then {}
    else Chosen(ids[..|ids| - 1], p) + if p(ids[|ids| - 1]) then {ids[|ids| - 1]} else {}
  }

  lemma {:induction false} ChosenMembers(ids: seq<string>, p: string -> bool, x: string)
    ensures x in Chosen(ids, p) <==> x in ids && p(x)
  {
    if ids != [] {
      assert ids == ids[..|ids| - 1] + [ids[|ids| - 1]];
      ChosenMembers(ids[..|ids| - 1], p, x);
    }
  }

  lemma MinusNone<K, V>(m: map<K, V>)
    ensures m - {} == m
  {
  }

  lemma MinusMore<K, V>(m: map<K, V>, s: set<K>, x: K)
    ensures m - s - {x} == m - (s + {x})
  {
  }

  // ---------------------------------------------------------------- settings and capacity demand

  function Or(given: int, present: int): int { if given > 0 then given else present }

  /** `ensurePool` on a pool that exists. */
  function Merged(s: Settings, e: Settings): Settings {
    Settings(Or(e.minNodes, s.minNodes), Or(e.maxNodes, s.maxNodes), Or(e.idleTime, s.idleTime),
             Or(e.provisionTimeout, s.provisionTimeout), if e.reclaim != "" then e.reclaim else s.reclaim,
             Or(e.cooldown, s.cooldown), Or(e.headroom, s.headroom), Or(e.drainTimeout, s.drainTimeout))
  }

  /** An event without settings changes none; a setting it gives replaces the old one. */
  lemma SettingsMerge(s: Settings, e: Settings)
    ensures Merged(s, Settings(0, 0, 0, 0, "", 0, 0, 0)) == s
    ensures Merged(Merged(s, e), e) == Merged(s, e)
    ensures AllGiven(e) ==> Merged(s, e) == e
  {
  }

  predicate AllGiven(e: Settings) {
    && e.minNodes > 0 && e.maxNodes > 0 && e.idleTime > 0 && e.provisionTimeout > 0 && e.reclaim != ""
    && e.cooldown > 0 && e.headroom > 0 && e.drainTimeout > 0
  }

  /** `desiredSize`. */
  function DesiredSize(s: Settings, running: int, nodes: int): (target: int)
    ensures s.maxNodes > 0 ==> target <= Max(s.maxNodes, s.minNodes)
    ensures target >= s.minNodes
    ensures s.maxNodes <= 0 || running + nodes + s.headroom <= s.maxNodes ==> target >= running + nodes + s.headroom
    ensures s.maxNodes > 0 && running + nodes + s.headroom > s.maxNodes ==> target >= s.maxNodes
    ensures target > running + nodes + s.headroom ==> target == s.minNodes
  {
    var wanted := running + nodes + s.headroom;
    var capped := if s.maxNodes > 0 && wanted > s.maxNodes then s.maxNodes else wanted;
    Max(capped, s.minNodes)
  }

  // ---------------------------------------------------------------- coalescing capacity events

  function AddNew(jobs: seq<string>, more: seq<string>): seq<string> {
    if more == [] then jobs
    else
      var all := AddNew(jobs, more[..|more| - 1]);
      if more[|more| - 1] in all then all else all + [more[|more| - 1]]
  }

  predicate Coalesces(queue: string, e: Event) { e.capacity && e.queue == queue }

  function MaxShortfall(a: Shortfall, b: Shortfall): Shortfall {
    Shortfall(Max(a.cores, b.cores), Max(a.nodes, b.nodes), Max(a.blocked, b.blocked))
  }

  function Coalesced(queue: string, ev: Event, e2: Event): Event {
    if Coalesces(queue, e2) then
      ev.(shortfall := MaxShortfall(ev.shortfall, e2.shortfall), jobs := AddNew(ev.jobs, e2.jobs))
    else ev
  }

  /** All queued events are taken; those of another kind or queue are dropped. */
  function CoalescedAll(queue: string, ev: Event, events: seq<Event>): Event {
    if events == [] then ev else Coalesced(queue, CoalescedAll(queue, ev, events[..|events| - 1]), events[|events| - 1])
  }

  lemma {:induction false} AddNewExact(jobs: seq<string>, more: seq<string>)
    ensures jobs <= AddNew(jobs, more) && (NoDup(jobs) ==> NoDup(AddNew(jobs, more)))
    ensures forall j :: j in AddNew(jobs, more) <==> j in jobs || j in more
  {
    if more != [] {
      assert more == more[..|more| - 1] + [more[|more| - 1]];
      AddNewExact(jobs, more[..|more| - 1]);
    }
  }

  /** `e` asks for at least what `f` asks for, for at least its jobs. */
  ghost predicate Covers(e: Event, f: Event) {
    && e.shortfall.cores >= f.shortfall.cores && e.shortfall.nodes >= f.shortfall.nodes
    && e.shortfall.blocked >= f.shortfall.blocked && forall j :: j in f.jobs ==> j in e.jobs
  }

  /** The merged event covers its first event and every capacity event of the queue that was waiting. */
  lemma {:induction false} CoalescedCovers(queue: string, ev: Event, events: seq<Event>)
    ensures Covers(CoalescedAll(queue, ev, events), ev)
    ensures forall i :: 0 <= i < |events| && Coalesces(queue, events[i]) ==>
            Covers(CoalescedAll(queue, ev, events), events[i])
    ensures NoDup(ev.jobs) ==> NoDup(CoalescedAll(queue, ev, events).jobs)
  {
    if events != [] {
      var m := |events| - 1;
      CoalescedCovers(queue, ev, events[..m]);
      AddNewExact(CoalescedAll(queue, ev, events[..m]).jobs, events[m].jobs);
      assert forall i :: 0 <= i < m ==> events[i] == events[..m][i];
    }
  }

  /** It asks for no more nodes than one of them does. */
  lemma {:induction false} CoalescedIsOneOf(queue: string, ev: Event, events: seq<Event>) returns (from: Event)
    ensures from == ev || (from in events && Coalesces(queue, from))
    ensures CoalescedAll(queue, ev, events).shortfall.nodes == from.shortfall.nodes
  {
    if events == [] {
      from := ev;
    } else {
      var m := |events| - 1;
      from := CoalescedIsOneOf(queue, ev, events[..m]);
      if Coalesces(queue, events[m]) && events[m].shortfall.nodes > from.shortfall.nodes { from := events[m]; }
    }
  }

  // ---------------------------------------------------------------- nodes coming up

  function UpOne(s: State, n: string): State {
    if n in s.provisioning then
      s.(provisioning := s.provisioning - {n}, owned := s.owned + {n},
         inflight := Less(s.inflight), running := s.running + 1)
    else s
  }

  function UpAll(s: State, nodes: seq<string>): State {
    if nodes == [] then s else UpOne(UpAll(s, nodes[..|nodes| - 1]), nodes[|nodes| - 1])
  }

  function Booting(s: State): string -> bool { n => n in s.provisioning }

  /** The pool after the VMs in `up` have registered. */
  function Registered(s: State, up: set<string>): State {
    s.(provisioning := s.provisioning - up, owned := s.owned + up,
       inflight := Minus(s.inflight, |up|), running := s.running + |up|)
  }

  lemma RegisteredNone(s: State)
    ensures Registered(s, {}) == s
  {
    MinusNone(s.provisioning);
  }

  lemma UpOneMore(s: State, up: set<string>, n: string)
    ensures n in s.provisioning ==> UpOne(Registered(s, up), n) == Registered(s, up + {n})
    ensures n !in s.provisioning ==> UpOne(Registered(s, up), n) == Registered(s, up)
  {
    SizeWithAndWithout(up, n);
    MinusMore(s.provisioning, up, n);
    assert s.owned + up + {n} == s.owned + (up + {n});
    if n in up { assert up + {n} == up; }
  }

  /** Exactly the booting VMs among the reported nodes become owned, each counted once however often it is listed. */
  lemma {:induction false} UpAllExact(s: State, nodes: seq<string>)
    ensures UpAll(s, nodes) == Registered(s, Chosen(nodes, Booting(s)))
  {
    if nodes == [] {
      RegisteredNone(s);
    } else {
      UpAllExact(s, nodes[..|nodes| - 1]);
      var up := Chosen(nodes[..|nodes| - 1], Booting(s));
      UpOneMore(s, up, nodes[|nodes| - 1]);
      assert up + {} == up;
    }
  }

  // ---------------------------------------------------------------- destroying booting VMs

  function ScrapOne(s: State, id: string): State {
    s.(provisioning := s.provisioning - {id}, provisionedAt := s.provisionedAt - {id}, inflight := Less(s.inflight))
  }

  /** The loop shared by the timeout sweep and the job sync: a VM whose reclaim fails is kept. */
  function ScrapAll(s: State, stale: seq<string>, reclaims: string -> bool): State {
    if stale == [] then s
    else
      var t := ScrapAll(s, stale[..|stale| - 1], reclaims);
      if reclaims(stale[|stale| - 1]) then ScrapOne(t, stale[|stale| - 1]) else t
  }

  lemma {:induction false} ScrapAllExact(s: State, stale: seq<string>, reclaims: string -> bool)
    requires NoDup(stale)
    ensures var gone := Chosen(stale, reclaims);
            ScrapAll(s, stale, reclaims) == s.(provisioning := s.provisioning - gone,
                                               provisionedAt := s.provisionedAt - gone,
                                               inflight := Minus(s.inflight, |gone|))
  {
    if stale == [] {
      MinusNone(s.provisioning);
      MinusNone(s.provisionedAt);
    } else {
      var m := |stale| - 1;
      NoDupPrefix(stale);
      ScrapAllExact(s, stale[..m], reclaims);
      var gone := Chosen(stale[..m], reclaims);
      SizeWithAndWithout(gone, stale[m]);
      ChosenMembers(stale[..m], reclaims, stale[m]);
      MinusMore(s.provisioning, gone, stale[m]);
      MinusMore(s.provisionedAt, gone, stale[m]);
    }
  }

  function Timeout(s: Settings): int {
    if s.provisionTimeout <= 0 then DEFAULT_PROVISION_TIMEOUT else s.provisionTimeout
  }

  predicate Overdue(s: State, now: int, id: string) {
    id in s.provisionedAt && now - s.provisionedAt[id] >= Timeout(s.settings)
  }

  predicate Orphan(s: State, alive: seq<string>, id: string) {
    id in s.provisioning && s.provisioning[id] != "" && s.provisioning[id] !in alive
  }

  /** After a sweep no VM is booting past its time, unless the provider would not let it go. */
  lemma SweepLeavesNoneOverdue(s: State, now: int, stale: seq<string>, reclaims: string -> bool, id: string)
    requires Tracked(View(s))
    requires NoDup(stale) && forall x :: x in stale <==> Overdue(s, now, x)
    requires id in ScrapAll(s, stale, reclaims).provisioning
    ensures var t := ScrapAll(s, stale, reclaims); id in t.provisionedAt && (Overdue(t, now, id) ==> !reclaims(id))
  {
    ScrapAllExact(s, stale, reclaims);
    ChosenMembers(stale, reclaims, id);
    assert id in View(s).provisioning;
  }

  /** After the job sync every booting VM is unbound, bound to a live job, or was not let go. */
  lemma SyncLeavesNoOrphan(s: State, alive: seq<string>, stale: seq<string>, reclaims: string -> bool, id: string)
    requires NoDup(stale) && forall x :: x in stale <==> Orphan(s, alive, x)
    ensures var t := ScrapAll(s, stale, reclaims); Orphan(t, alive, id) ==> !reclaims(id)
    ensures id in s.provisioning && !Orphan(s, alive, id) ==>
              var t := ScrapAll(s, stale, reclaims); id in t.provisioning && t.provisioning[id] == s.provisioning[id]
  {
    ScrapAllExact(s, stale, reclaims);
    ChosenMembers(stale, reclaims, id);
  }

  // ---------------------------------------------------------------- each change is a move

  lemma UpIsMove(s: State, n: string)
    requires n in s.provisioning
    ensures View(UpOne(s, n)) == Apply(View(s), Up(n))
  {
    assert (s.provisioning - {n}).Keys == s.provisioning.Keys - {n};
  }

  lemma ScrapIsMove(s: State, id: string)
    ensures View(ScrapOne(s, id)) == Apply(View(s), Scrap(id))
  {
    assert (s.provisioning - {id}).Keys == s.provisioning.Keys - {id};
    assert (s.provisionedAt - {id}).Keys == s.provisionedAt.Keys - {id};
  }

  lemma BindIsMove(s: State, id: string, job: string, at: int)
    ensures View(BindOne(s, id, job, at)) == Apply(View(s), Boot(id))
  {
    assert s.provisioning[id := job].Keys == s.provisioning.Keys + {id};
    assert s.provisionedAt[id := at].Keys == s.provisionedAt.Keys + {id};
  }

  lemma WakeIsMove(s: State, id: string, job: string, now: int)
    ensures View(WakeOne(s, id, job, now)) == Apply(View(s), Resume(id))
  {
    assert (s.hibernated - {id}).Keys == s.hibernated.Keys - {id};
    assert s.provisioning[id := job].Keys == s.provisioning.Keys + {id};
    assert s.provisionedAt[id := now].Keys == s.provisionedAt.Keys + {id};
  }

  lemma RetireIsMove(s: State, now: int, n: string)
    ensures View(Retired(s, now, n)) == Apply(View(s), Retire(n, s.settings.reclaim == "hibernate"))
  {
    assert (s.idleSince - {n}).Keys == s.idleSince.Keys - {n};
    assert s.hibernated[n := now].Keys == s.hibernated.Keys + {n};
  }

  // ---------------------------------------------------------------- idle timers

  function IdleOne(s: State, idle: seq<string>, now: int, n: string): State {
    if n in idle then
      if n in s.idleSince then s else s.(idleSince := s.idleSince[n := now])
    else s.(idleSince := s.idleSince - {n})
  }

  function IdleAll(s: State, idle: seq<string>, now: int, order: seq<string>): State {
    if order == [] then s else IdleOne(IdleAll(s, idle, now, order[..|order| - 1]), idle, now, order[|order| - 1])
  }

  /**
   Whatever the order of the visits: a visited node has a timer if and only if it is reported idle, one
   that stays idle keeps its starting time, a newly idle one starts now, and the rest keep theirs.
   */
  lemma {:induction false} IdleAllExact(s: State, idle: seq<string>, now: int, order: seq<string>, n: string)
    ensures var t := IdleAll(s, idle, now, order);
            && t == s.(idleSince := t.idleSince)
            && (n in t.idleSince <==> if n in order then n in idle else n in s.idleSince)
            && (n in t.idleSince ==> t.idleSince[n] == if n in s.idleSince then s.idleSince[n] else now)
  {
    if order != [] {
      var m := |order| - 1;
      assert order == order[..m] + [order[m]];
      IdleAllExact(s, idle, now, order[..m], n);
    }
  }

  // ---------------------------------------------------------------- which hibernated VM is resumed

  predicate Oldest(hib: map<string, int>, id: string) { id in hib && forall k :: k in hib ==> hib[id] <= hib[k] }

  /** The scan over the hibernated VMs, in which "" stands for none found yet. */
  function Pick(hib: map<string, int>, order: seq<string>): (id: string)
    requires forall k :: k in order ==> k in hib
    ensures if order == [] then id == "" else id in order
  {
    if order == [] then ""
    else
      var m := |order| - 1;
      var best := Pick(hib, order[..m]);
      if best == "" || hib[order[m]] < hib[best] then order[m] else best
  }

  /** Some VM suspended first has a name, or there is only one VM. */
  ghost predicate NamedOldest(hib: map<string, int>) { |hib| == 1 || exists k :: k != "" && Oldest(hib, k) }

  lemma {:induction false} PickFindsNamed(hib: map<string, int>, order: seq<string>, k: string)
    requires (forall x :: x in order ==> x in hib) && k in order && k != "" && Oldest(hib, k)
    ensures Oldest(hib, Pick(hib, order)) && Pick(hib, order) != ""
  {
    var m := |order| - 1;
    if order[m] != k { PickFindsNamed(hib, order[..m], k); }
  }

  lemma {:induction false} PickForgetsNameless(hib: map<string, int>, order: seq<string>)
    requires (forall x :: x in order ==> x in hib) && |order| >= 2 && order[0] == "" && NoDup(order)
    ensures Pick(hib, order) != ""
  {
    var m := |order| - 1;
    if m > 1 { PickForgetsNameless(hib, order[..m]); } else { assert order[..m] == [""]; }
  }

  lemma Singleton(s: set<string>, x: string)
    requires |s| == 1 && x in s
    ensures s == {x}
  {
    SizeWithAndWithout(s, x);
  }

  lemma PickOldestIfNamed(hib: map<string, int>, order: seq<string>)
    requires Enumerates(order, hib.Keys) && hib != map[] && NamedOldest(hib)
    ensures Oldest(hib, Pick(hib, order))
  {
    var first :| first in hib.Keys;
    assert first in order;
    if |hib| == 1 {
      Singleton(hib.Keys, Pick(hib, order));
    } else {
      var k :| k != "" && Oldest(hib, k);
      PickFindsNamed(hib, order, k);
    }
  }

  lemma PickMayMissNameless(hib: map<string, int>) returns (order: seq<string>)
    requires hib != map[] && !NamedOldest(hib) && "" in hib
    ensures Enumerates(order, hib.Keys) && !Oldest(hib, Pick(hib, order))
  {
    var rest := EnumerationExists(hib.Keys - {""});
    order := [""] + rest;
    SizeWithAndWithout(hib.Keys, "");
    var z :| z in hib.Keys - {""};
    assert z in rest;
    PickForgetsNameless(hib, order);
  }

  lemma {:induction false} OldestExists(hib: map<string, int>, keys: set<string>) returns (k: string)
    requires keys != {} && keys <= hib.Keys
    ensures k in keys && forall j :: j in keys ==> hib[k] <= hib[j]
  {
    var x :| x in keys;
    assert forall j :: j in keys ==> j == x || j in keys - {x};
    if keys - {x} == {} {
      k := x;
    } else {
      k := OldestExists(hib, keys - {x});
      if hib[x] < hib[k] { k := x; }
    }
  }

  /** The scan finds a VM suspended first in every order of iteration exactly if one with a name was, or it is alone. */
  lemma PickOldestIff(hib: map<string, int>)
    requires hib != map[]
    ensures (forall order :: Enumerates(order, hib.Keys) ==> Oldest(hib, Pick(hib, order))) <==> NamedOldest(hib)
  {
    if NamedOldest(hib) {
      forall order | Enumerates(order, hib.Keys)
        ensures Oldest(hib, Pick(hib, order))
      {
        PickOldestIfNamed(hib, order);
      }
    } else {
      var first :| first in hib.Keys;
      var k := OldestExists(hib, hib.Keys);
      assert Oldest(hib, k);
      var order := PickMayMissNameless(hib);
    }
  }

  // ---------------------------------------------------------------- scale-out

  function JobFor(jobs: seq<string>, i: nat): string { if i < |jobs| then jobs[i] else "" }

  function WakeOne(s: State, id: string, job: string, now: int): State {
    s.(hibernated := s.hibernated - {id}, provisioning := s.provisioning[id := job],
       provisionedAt := s.provisionedAt[id := now], inflight := s.inflight + 1)
  }

  function WakeAll(s: State, woken: seq<string>, jobs: seq<string>, now: int): State {
    if woken == [] then s
    else
      var m := |woken| - 1;
      WakeOne(WakeAll(s, woken[..m], jobs, now), woken[m], JobFor(jobs, m), now)
  }

  function BindOne(s: State, id: string, job: string, at: int): State {
    s.(provisioning := s.provisioning[id := job], provisionedAt := s.provisionedAt[id := at],
       inflight := s.inflight + 1)
  }

  /** New VMs are bound from the first job on, whatever was bound to resumed ones. */
  function BindAll(s: State, vms: seq<string>, jobs: seq<string>, bootAt: nat -> int): State {
    if vms == [] then s
    else
      var m := |vms| - 1;
      BindOne(BindAll(s, vms[..m], jobs, bootAt), vms[m], JobFor(jobs, m), bootAt(m))
  }

  function Without(hib: map<string, int>, woken: seq<string>): map<string, int> {
    if woken == [] then hib else Without(hib, woken[..|woken| - 1]) - {woken[|woken| - 1]}
  }

  /** `woken` were taken from `hib` one by one, each an oldest of those left if all of these have a name. */
  ghost predicate InTurn(hib: map<string, int>, woken: seq<string>) {
    woken == [] ||
    var left, id := Without(hib, woken[..|woken| - 1]), woken[|woken| - 1];
    InTurn(hib, woken[..|woken| - 1]) && id in left && ("" !in left ==> Oldest(left, id))
  }

  lemma {:induction false} WithoutShrinks(hib: map<string, int>, woken: seq<string>)
    ensures Without(hib, woken).Keys <= hib.Keys
    ensures forall k :: k in Without(hib, woken) ==> Without(hib, woken)[k] == hib[k]
    ensures InTurn(hib, woken) ==> |Without(hib, woken)| == |hib| - |woken|
  {
    if woken != [] {
      var m := |woken| - 1;
      WithoutShrinks(hib, woken[..m]);
      var before := Without(hib, woken[..m]);
      SizeWithAndWithout(before.Keys, woken[m]);
      assert (before - {woken[m]}).Keys == before.Keys - {woken[m]};
    }
  }

  /** Of VMs that all have a name, every resumed one had been suspended no later than any that is left. */
  lemma {:induction false} ResumedAreOldest(hib: map<string, int>, woken: seq<string>, i: nat, k: string)
    requires InTurn(hib, woken) && "" !in hib && i < |woken| && k in Without(hib, woken)
    ensures woken[i] in hib && k in hib && hib[woken[i]] <= hib[k]
  {
    var m := |woken| - 1;
    WithoutShrinks(hib, woken[..m]);
    if i < m { ResumedAreOldest(hib, woken[..m], i, k); }
  }

  lemma {:induction false} WakeAllCounts(s: State, woken: seq<string>, jobs: seq<string>, now: int)
    ensures var t := WakeAll(s, woken, jobs, now);
            && t.running == s.running && t.inflight == s.inflight + |woken| && t.owned == s.owned
            && t.settings == s.settings && t.hibernated == Without(s.hibernated, woken)
            && t.cooldownUntil == s.cooldownUntil
  {
    if woken != [] { WakeAllCounts(s, woken[..|woken| - 1], jobs, now); }
  }

  lemma {:induction false} BindAllCounts(s: State, vms: seq<string>, jobs: seq<string>, bootAt: nat -> int)
    ensures var t := BindAll(s, vms, jobs, bootAt);
            && t.running == s.running && t.inflight == s.inflight + |vms| && t.owned == s.owned
            && t.settings == s.settings && t.hibernated == s.hibernated && t.cooldownUntil == s.cooldownUntil
  {
    if vms != [] { BindAllCounts(s, vms[..|vms| - 1], jobs, bootAt); }
  }

  function Need(s: State, nodes: int): int {
    DesiredSize(s.settings, s.running, nodes) - (s.running + s.inflight)
  }

  function Cooled(s: State, now: int, fallback: int): State {
    s.(cooldownUntil := now + if s.settings.cooldown <= 0 then fallback else s.settings.cooldown)
  }

  function Reply(ensure: nat -> Option<seq<string>>, count: int): seq<string> {
    if count <= 0 || ensure(count).None? then [] else ensure(count).value
  }

  /** `t` is the pool after `need` VMs were asked for and `woken` were resumed; Ensure was asked for the rest. */
  ghost predicate Scaled(s: State, need: nat, jobs: seq<string>, now: int, fallback: int,
                         ensure: nat -> Option<seq<string>>, bootAt: nat -> int, woken: seq<string>, t: State) {
    && InTurn(s.hibernated, woken)
    && |woken| == (if need <= |s.hibernated| then need else |s.hibernated|)
    && t == BindAll(WakeAll(Cooled(s, now, fallback), woken, jobs, now), Reply(ensure, need - |woken|), jobs, bootAt)
  }

  /** `t` is the pool after a capacity event resumed `woken`; Ensure was asked for the rest. */
  ghost predicate ScaledOut(s: State, ev: Event, now: int, fallback: int, ensure: nat -> Option<seq<string>>,
                            bootAt: nat -> int, woken: seq<string>, t: State) {
    var need := Need(s, ev.shortfall.nodes);
    if now < s.cooldownUntil || need <= 0 then woken == [] && t == s
    else Scaled(s, need, ev.jobs, now, fallback, ensure, bootAt, woken, t)
  }

  /** What the provider returned to one of its calls, or nothing. */
  ghost predicate Answered(ensure: nat -> Option<seq<string>>, vms: seq<string>) {
    vms == [] || exists n :: vms == Reply(ensure, n)
  }

  lemma ReplyIsAnswer(ensure: nat -> Option<seq<string>>, n: int)
    ensures Answered(ensure, Reply(ensure, n))
  {
  }

  lemma ScaledCounts(s: State, need: nat, jobs: seq<string>, now: int, fallback: int,
                     ensure: nat -> Option<seq<string>>,
                     bootAt: nat -> int, woken: seq<string>, t: State)
    requires Scaled(s, need, jobs, now, fallback, ensure, bootAt, woken, t)
    ensures t.running == s.running && t.settings == s.settings
            && t.cooldownUntil == Cooled(s, now, fallback).cooldownUntil
    ensures |woken| <= need && t.inflight == s.inflight + |woken| + |Reply(ensure, need - |woken|)|
    ensures t.hibernated == Without(s.hibernated, woken)
  {
    var u := Cooled(s, now, fallback);
    WakeAllCounts(u, woken, jobs, now);
    BindAllCounts(WakeAll(u, woken, jobs, now), Reply(ensure, need - |woken|), jobs, bootAt);
  }

  /** A pool that has scaled out does nothing on further capacity events until its cooldown is over. */
  lemma NoFlapping(s: State, t: State, u: State, ev: Event, ev2: Event, now: int, now2: int, fallback: int,
                   ensure: nat -> Option<seq<string>>, bootAt: nat -> int, woken: seq<string>, woken2: seq<string>)
    requires ScaledOut(s, ev, now, fallback, ensure, bootAt, woken, t) && t != s
    requires ScaledOut(t, ev2, now2, fallback, ensure, bootAt, woken2, u)
    requires now2 < now + if s.settings.cooldown <= 0 then fallback else s.settings.cooldown
    ensures u == t
  {
    ScaledCounts(s, Need(s, ev.shortfall.nodes), ev.jobs, now, fallback, ensure, bootAt, woken, t);
  }

  /** Each new VM is bound to the job at its own place in the event, from the first job on; other VMs keep theirs. */
  lemma {:induction false} NewVmsBoundInOrder(s: State, vms: seq<string>, jobs: seq<string>, bootAt: nat -> int,
                                              id: string)
    requires NoDup(vms)
    ensures var t := BindAll(s, vms, jobs, bootAt);
            && (forall i :: 0 <= i < |vms| && vms[i] == id ==>
                  && id in t.provisioning && t.provisioning[id] == JobFor(jobs, i)
                  && id in t.provisionedAt && t.provisionedAt[id] == bootAt(i))
            && (id !in vms ==> (id in t.provisioning <==> id in s.provisioning)
                               && (id in s.provisioning ==> t.provisioning[id] == s.provisioning[id]))
  {
    if vms != [] {
      NoDupPrefix(vms);
      NewVmsBoundInOrder(s, vms[..|vms| - 1], jobs, bootAt, id);
    }
  }

  /** Ensure returns at most as many VMs as it is asked for. */
  ghost predicate Modest(ensure: nat -> Option<seq<string>>) { forall n :: |Reply(ensure, n)| <= Max(n, 0) }

  ghost predicate Complete(ensure: nat -> Option<seq<string>>) { forall n :: |Reply(ensure, n)| == Max(n, 0) }

  /**
   A capacity event leaves Running alone and, if Ensure never returns more VMs than asked for, does not
   take Running + Inflight past the target, hence not past max(MaxNodes, MinNodes) when MaxNodes is set,
   whatever mix of resumed and new VMs is used; it reaches the target if Ensure returns all it was asked for.
   */
  lemma ScaleOutBound(s: State, ev: Event, now: int, fallback: int, ensure: nat -> Option<seq<string>>,
                      bootAt: nat -> int, woken: seq<string>, t: State)
    requires ScaledOut(s, ev, now, fallback, ensure, bootAt, woken, t)
    ensures t.running == s.running && t.settings == s.settings
    ensures var before, after := s.running + s.inflight, t.running + t.inflight;
            var target := DesiredSize(s.settings, s.running, ev.shortfall.nodes);
            && (Modest(ensure) ==> after <= Max(before, target))
            && (Modest(ensure) && s.settings.maxNodes > 0 ==>
                after <= Max(before, Max(s.settings.maxNodes, s.settings.minNodes)))
            && (Complete(ensure) && now >= s.cooldownUntil ==> after == Max(before, target))
  {
    var need := Need(s, ev.shortfall.nodes);
    if now >= s.cooldownUntil && need > 0 {
      ScaledCounts(s, need, ev.jobs, now, fallback, ensure, bootAt, woken, t);
      var n := need - |woken|;
      assert |Reply(ensure, n)| <= n || !Modest(ensure);
      assert |Reply(ensure, n)| == n || !Complete(ensure);
    }
  }

  /** One VM too many from Ensure takes a pool past its maximum. */
  lemma GenerousEnsureBreaksBound(bootAt: nat -> int)
    returns (s: State, ev: Event, ensure: nat -> Option<seq<string>>, t: State)
    ensures ScaledOut(s, ev, 0, 30, ensure, bootAt, [], t) && !Modest(ensure)
    ensures s.settings.maxNodes == 1 && s.running + s.inflight == 0 && t.running + t.inflight == 2
  {
    var none := Settings(0, 0, 0, 0, "", 0, 0, 0);
    s := State(none.(maxNodes := 1), 0, 0, map[], map[], {}, map[], map[], map[], 0);
    ev := Event(true, "q", Shortfall(1, 1, 1), [], none);
    ensure := n => Some(["a", "b"]);
    t := BindAll(Cooled(s, 0, 30), ["a", "b"], [], bootAt);
    assert |Reply(ensure, 1)| == 2;
    BindAllCounts(Cooled(s, 0, 30), ["a", "b"], [], bootAt);
  }

  // ---------------------------------------------------------------- scale-in

  /** The answers of the node controller, if one is set. */
  datatype Replies = Replies(controller: bool, drains: string -> bool, deregisters: string -> bool)

  predicate Gone(r: Replies, n: string) { r.controller && r.drains(n) && r.deregisters(n) }

  predicate Deferred(s: State, now: int, n: string) {
    s.settings.drainTimeout > 0 && n in s.lastReclaim && now - s.lastReclaim[n] < s.settings.drainTimeout
  }

  /** A node that is drained and deregistered leaves the pool. */
  function Retired(s: State, now: int, n: string): State {
    s.(owned := s.owned - {n}, idleSince := s.idleSince - {n}, lastReclaim := s.lastReclaim - {n},
       running := Less(s.running),
       hibernated := if s.settings.reclaim == "hibernate" then s.hibernated[n := now] else s.hibernated)
  }

  /** `reclaimNodeLocked`; the provider's answer does not matter. */
  function RetireOne(s: State, now: int, r: Replies, n: string): State {
    if Gone(r, n) then Retired(s, now, n)
    else
      s.(lastReclaim := s.lastReclaim[n := now],
         idleSince := if r.controller then s.idleSince else s.idleSince - {n})
  }

  function RetireAll(s: State, now: int, r: Replies, candidates: seq<string>): State {
    if candidates == [] then s
    else
      var t := RetireAll(s, now, r, candidates[..|candidates| - 1]);
      if Deferred(t, now, candidates[|candidates| - 1]) then t else RetireOne(t, now, r, candidates[|candidates| - 1])
  }

  function Retiring(s: State, now: int, r: Replies): string -> bool { n => !Deferred(s, now, n) && Gone(r, n) }

  lemma {:induction false} RetireAllSparesOthers(s: State, now: int, r: Replies, candidates: seq<string>, n: string)
    requires n !in candidates
    ensures Deferred(RetireAll(s, now, r, candidates), now, n) <==> Deferred(s, now, n)
    ensures RetireAll(s, now, r, candidates).settings == s.settings
  {
    if candidates != [] { RetireAllSparesOthers(s, now, r, candidates[..|candidates| - 1], n); }
  }

  /** `t` is `s` without the nodes in `retired`. */
  predicate Shrunk(s: State, t: State, retired: set<string>) {
    && t.owned == s.owned - retired && t.running == Minus(s.running, |retired|)
    && t.inflight == s.inflight && t.provisioning == s.provisioning && t.settings == s.settings
    && t.hibernated.Keys == s.hibernated.Keys + if s.settings.reclaim == "hibernate" then retired else {}
  }

  lemma SetsMore(owned: set<string>, hibernated: set<string>, retired: set<string>, n: string)
    ensures owned - retired - {n} == owned - (retired + {n})
    ensures hibernated + retired + {n} == hibernated + (retired + {n})
  {
  }

  lemma RetireOneMore(s: State, t: State, retired: set<string>, now: int, r: Replies, n: string)
    requires Shrunk(s, t, retired) && n !in retired && Gone(r, n)
    ensures Shrunk(s, RetireOne(t, now, r, n), retired + {n})
  {
    SizeWithAndWithout(retired, n);
    SetsMore(s.owned, s.hibernated.Keys, retired, n);
    KeysWith(t.hibernated, n, now);
  }

  lemma KeysWith(m: map<string, int>, k: string, v: int)
    ensures m[k := v].Keys == m.Keys + {k}
  {
  }

  lemma RetireNext(s: State, t: State, retired: set<string>, now: int, r: Replies, n: string)
    requires Shrunk(s, t, retired) && n !in retired && (Deferred(t, now, n) <==> Deferred(s, now, n))
    ensures Shrunk(s, if Deferred(t, now, n) then t else RetireOne(t, now, r, n),
                   retired + if Retiring(s, now, r)(n) then {n} else {})
  {
    assert retired + {} == retired;
    if !Deferred(t, now, n) && Gone(r, n) { RetireOneMore(s, t, retired, now, r, n); }
  }

  /**
   Exactly the candidates that are not in their drain interval and leave the server are given up, each counted
   once.
   */
  lemma {:induction false} RetireAllExact(s: State, now: int, r: Replies, candidates: seq<string>)
    requires NoDup(candidates)
    ensures Shrunk(s, RetireAll(s, now, r, candidates), Chosen(candidates, Retiring(s, now, r)))
  {
    if candidates != [] {
      var before, n := candidates[..|candidates| - 1], candidates[|candidates| - 1];
      NoDupPrefix(candidates);
      RetireAllExact(s, now, r, before);
      RetireAllSparesOthers(s, now, r, before, n);
      ChosenMembers(before, Retiring(s, now, r), n);
      RetireNext(s, RetireAll(s, now, r, before), Chosen(before, Retiring(s, now, r)), now, r, n);
    }
  }

  /**
   A reclaim that did not settle is not tried again before the drain timeout has passed; one that did leaves no
   trace.
   */
  lemma DrainRateLimit(s: State, now: int, later: int, r: Replies, n: string)
    ensures Deferred(RetireOne(s, now, r, n), later, n) <==>
            !Gone(r, n) && s.settings.drainTimeout > 0 && later - now < s.settings.drainTimeout
  {
  }

  /** The floor is tested once for the whole sweep: it is kept if and only if no more nodes go than stand above it. */
  lemma FloorKeptIff(s: State, now: int, r: Replies, candidates: seq<string>)
    requires NoDup(candidates) && s.running > s.settings.minNodes
    ensures RetireAll(s, now, r, candidates).running >= s.settings.minNodes <==>
            s.settings.minNodes <= 0 || |Chosen(candidates, Retiring(s, now, r))| <= s.running - s.settings.minNodes
  {
    RetireAllExact(s, now, r, candidates);
  }

  /** Two idle nodes, a floor of one: both go. */
  lemma FloorCanBreak(r: Replies) returns (s: State)
    requires Gone(r, "a") && Gone(r, "b")
    ensures s.running > s.settings.minNodes == 1 && s.owned == s.idleSince.Keys == {"a", "b"}
    ensures RetireAll(s, 100, r, ["a", "b"]).running == 0
  {
    s := State(Settings(1, 0, 60, 0, "", 0, 0, 0), 2, 0, map[], map[], {"a", "b"},
               map["a" := 0, "b" := 0], map[], map[], 0);
    var names := ["a", "b"];
    assert names[..1] == ["a"] && names[..1][..0] == [];
    assert RetireAll(s, 100, r, names[..1][..0]) == s;
    assert RetireAll(s, 100, r, names[..1]) == RetireOne(s, 100, r, "a");
    assert RetireAll(s, 100, r, names) == RetireOne(RetireOne(s, 100, r, "a"), 100, r, "b");
  }
}
