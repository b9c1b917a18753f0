/** Queue routing and the admission gate: which jobs may enter which queue, and the limits that commits keep. */
module Admission {
  import opened Decimal
  import opened Strings
  import opened Listing
  import L = SlotLedger

  /** The job facts the gate looks at. `types` are its type tags, `host` its submit host. */
  datatype Job = Job(state: L.JobState, queue: string, owner: string, group: string, host: string, types: seq<string>,
                     resources: Resources)

  datatype Resources = Resources(ncpus: string, walltime: string, mem: string)

  /** A list of names that is only consulted if it is enabled and not empty. */
  datatype Acl = Acl(enabled: bool, names: seq<string>)

  datatype Queue = Queue(isRoute: bool, destinations: seq<string>, enabled: bool, started: bool, fromRouteOnly: bool,
                         maxJobs: int, maxRun: int, maxUserJobs: int, maxUserRun: int,
                         users: Acl, groups: Acl, hosts: Acl, disallowed: seq<string>,
                         least: Resources, most: Resources)

  datatype Refusal =
    | Disabled | NotStarted | RoutedOnly | TypeDisallowed | Full | RunFull | UserFull | UserRunFull
    | UserDenied | GroupDenied | HostDenied | OutOfRange

  // ---------------------------------------------------------------- text to numbers

  /** `ParseInt` with the error ignored: 0 for text that is no number, the nearest int64 for one out of range. */
  function Lenient(s: string): int {
    if s == "" then 0
    else
      var digits := if s[0] == '-' || s[0] == '+' then s[1..] else s;
      if digits == "" || !AllDigits(digits) then 0
      else
        var v := if s[0] == '-' then -Accumulate(0, digits) else Accumulate(0, digits);
        if v >= TWO63 then TWO63 - 1 else if v < -TWO63 then -TWO63 else v
  }

  function WalltimeSeconds(s: string): int {
    var p := Split(s, ':');
    if |p| == 3 then Wrap64(Wrap64(Wrap64(Lenient(p[0]) * 3600) + Wrap64(Lenient(p[1]) * 60)) + Lenient(p[2]))
    else if |p| == 2 then Wrap64(Wrap64(Lenient(p[0]) * 60) + Lenient(p[1]))
    else Lenient(s)
  }

  predicate HasSuffix(s: string, suffix: string) { |suffix| <= |s| && s[|s| - |suffix|..] == suffix }

  function MemKB(s: string): int {
    var t := TrimSpace(ToLower(s));
    if HasSuffix(t, "kb") then Lenient(t[..|t| - 2])
    else if HasSuffix(t, "mb") then Wrap64(Lenient(t[..|t| - 2]) * 1024)
    else if HasSuffix(t, "gb") then Wrap64(Lenient(t[..|t| - 2]) * 1048576)
    else if HasSuffix(t, "tb") then Wrap64(Lenient(t[..|t| - 2]) * 1073741824)
    else Lenient(t)
  }

  lemma LenientReads(n: nat)
    requires n < TWO63
    ensures Lenient(FormatNat(n)) == n
  {
    AccumulateFormatNat(n);
    assert IsDigit(FormatNat(n)[0]);
  }

  lemma ThreeParts(a: string, b: string, c: string)
    requires ':' !in a && ':' !in b && ':' !in c
    ensures Split(a + ":" + (b + ":" + c), ':') == [a, b, c]
  {
    SplitAtSep(a, ':', b + ":" + c);
    SplitAtSep(b, ':', c);
    SplitOne(c, ':');
  }

  lemma SecondsOf(a: string, b: string, c: string, h: nat, m: nat, s: nat)
    requires ':' !in a && ':' !in b && ':' !in c && Lenient(a) == h && Lenient(b) == m && Lenient(c) == s
    requires h * 3600 + m * 60 + s < TWO63
    ensures WalltimeSeconds(a + ":" + (b + ":" + c)) == h * 3600 + m * 60 + s
  {
    ThreeParts(a, b, c);
  }

  /** "HH:MM:SS" is read as that many seconds. */
  lemma WalltimeIsRead(h: nat, m: nat, s: nat)
    requires h * 3600 + m * 60 + s < TWO63
    ensures WalltimeSeconds(FormatNat(h) + ":" + (FormatNat(m) + ":" + FormatNat(s))) == h * 3600 + m * 60 + s
  {
    NumberText(h);
    NumberText(m);
    NumberText(s);
    SecondsOf(FormatNat(h), FormatNat(m), FormatNat(s), h, m, s);
  }

  lemma NumberText(n: nat)
    requires n < TWO63
    ensures ':' !in FormatNat(n) && Lenient(FormatNat(n)) == n
  {
    DigitsAreText(FormatNat(n), ':');
    LenientReads(n);
  }

  function UnitOf(suffix: string): int {
    if suffix == "kb" then 1 else if suffix == "mb" then 1024 else if suffix == "gb" then 1048576 else 1073741824
  }

  predicate IsUnit(unit: string) { unit == "kb" || unit == "mb" || unit == "gb" || unit == "tb" }

  /** A number and a unit, as the reader takes them apart. */
  lemma SizeText(d: string, unit: string)
    requires d != "" && AllDigits(d) && IsUnit(unit)
    ensures var t := d + unit; TrimSpace(ToLower(t)) == t && t[|t| - 2..] == unit && t[..|t| - 2] == d
  {
    var t := d + unit;
    assert IsDigit(t[0]) && t[|t| - 1] == 'b';
    TrimNothing(t);
    assert forall i :: 0 <= i < |t| ==> Lower(t[i]) == t[i];
    assert ToLower(t) == t;
  }

  lemma SizeOf(d: string, unit: string)
    requires d != "" && AllDigits(d) && IsUnit(unit)
    ensures MemKB(d + unit) == if unit == "kb" then Lenient(d) else Wrap64(Lenient(d) * UnitOf(unit))
  {
    SizeText(d, unit);
  }

  /** A size with the unit kb, mb, gb or tb is read in KB. */
  lemma MemIsRead(n: nat, unit: string)
    requires IsUnit(unit) && n * UnitOf(unit) < TWO63
    ensures MemKB(FormatNat(n) + unit) == n * UnitOf(unit)
  {
    var k := UnitOf(unit);
    assert n <= n * k;
    LenientReads(n);
    SizeOf(FormatNat(n), unit);
    assert unit == "kb" ==> n * k == n;
  }

  datatype Kind = Ncpus | Walltime | Mem

  function Text(r: Resources, k: Kind): string {
    match k case Ncpus => r.ncpus case Walltime => r.walltime case Mem => r.mem
  }

  function Amount(k: Kind, text: string): int {
    match k case Ncpus => Lenient(text) case Walltime => WalltimeSeconds(text) case Mem => MemKB(text)
  }

  /** A resource the job does not ask for is not checked, nor is an empty limit or a negative maximum. */
  predicate Within(least: Resources, most: Resources, r: Resources, k: Kind) {
    Text(r, k) == "" ||
    var v := Amount(k, Text(r, k));
    && (Text(least, k) != "" ==> Amount(k, Text(least, k)) <= v)
    && (Text(most, k) != "" ==> Amount(k, Text(most, k)) < 0 || v <= Amount(k, Text(most, k)))
  }

  predicate InInterval(least: Resources, most: Resources, r: Resources) {
    Within(least, most, r, Ncpus) && Within(least, most, r, Walltime) && Within(least, most, r, Mem)
  }

  /** `checkResourceInterval`. */
  method CheckResourceInterval(least: Resources, most: Resources, r: Resources) returns (ok: bool)
    ensures ok <==> InInterval(least, most, r)
  {
    var names := [Ncpus, Walltime, Mem];
    for i := 0 to 3
      invariant forall j :: 0 <= j < i ==> Within(least, most, r, names[j])
    {
      var k := names[i];
      if Text(r, k) != "" {
        var v := Amount(k, Text(r, k));
        if Text(least, k) != "" && Amount(k, Text(least, k)) > v {
          assert !Within(least, most, r, k);
          return false;
        }
        if Text(most, k) != "" && Amount(k, Text(most, k)) >= 0 && Amount(k, Text(most, k)) < v {
          assert !Within(least, most, r, k);
          return false;
        }
      }
    }
    assert Within(least, most, r, names[0]) && Within(least, most, r, names[1]) && Within(least, most, r, names[2]);
    return true;
  }

  // ---------------------------------------------------------------- access lists

  function ExtractUser(s: string): string {
    var at := IndexOf(s, '@');
    if at >= 0 then s[..at] else s
  }

  predicate Matches(entry: string, user: string) {
    var e := TrimSpace(entry);
    e != "" && (e == user || ExtractUser(e) == user)
  }

  /** `aclContains` on the joined list. */
  predicate AclContains(list: string, user: string) {
    exists i :: 0 <= i < |Split(list, ',')| && Matches(Split(list, ',')[i], user)
  }

  predicate Admits(acl: Acl, user: string) {
    acl.enabled && acl.names != [] ==> AclContains(Join(acl.names, ","), user)
  }

  predicate AdmitsHost(acl: Acl, host: string) {
    acl.enabled && acl.names != [] ==> host != "" && AclContains(Join(acl.names, ","), host)
  }

  /** Where no name holds a comma, joining and splitting the list loses nothing. */
  lemma AclIsItsEntries(names: seq<string>, user: string)
    requires names != [] && forall i :: 0 <= i < |names| ==> ',' !in names[i]
    ensures AclContains(Join(names, ","), user) <==> exists i :: 0 <= i < |names| && Matches(names[i], user)
  {
    SplitJoin(names, ',');
  }

  // ---------------------------------------------------------------- counts

  predicate Pends(s: L.JobState) { s == L.Queued || s == L.Provisioning || s == L.Held || s == L.Waiting }

  /** The jobs of a queue that are queued, provisioning, held or waiting. */
  function Pending(jobs: map<string, Job>, queue: string): set<string> {
    set id | id in jobs && jobs[id].queue == queue && Pends(jobs[id].state)
  }

  function InStates(jobs: map<string, Job>, queue: string, states: set<L.JobState>): set<string> {
    set id | id in jobs && jobs[id].queue == queue && jobs[id].state in states
  }

  function OwnersIn(jobs: map<string, Job>, queue: string, states: set<L.JobState>, owner: string): set<string> {
    set id | id in jobs && jobs[id].queue == queue && jobs[id].state in states && jobs[id].owner == owner
  }

  /** The three counts that the gate adds up count each pending job once. */
  lemma PendingIsSum(jobs: map<string, Job>, queue: string)
    ensures |Pending(jobs, queue)| == |InStates(jobs, queue, {L.Queued, L.Provisioning})|
                                      + |InStates(jobs, queue, {L.Held})| + |InStates(jobs, queue, {L.Waiting})|
  {
    var a, b, c := InStates(jobs, queue, {L.Queued, L.Provisioning}), InStates(jobs, queue, {L.Held}),
        InStates(jobs, queue, {L.Waiting});
    assert Pending(jobs, queue) == a + b + c && a !! b && (a + b) !! c;
  }

  // ---------------------------------------------------------------- the gate

  predicate Disallows(disallowed: seq<string>, types: seq<string>) { exists t :: t in types && t in disallowed }

  /** What does not depend on the other jobs. */
  predicate Suits(q: Queue, j: Job, user: string, fromRoute: bool) {
    && q.enabled && q.started && (q.fromRouteOnly ==> fromRoute)
    && !Disallows(q.disallowed, j.types)
    && Admits(q.users, ExtractUser(user)) && Admits(q.groups, j.group)
    && AdmitsHost(q.hosts, j.host)
    && InInterval(q.least, q.most, j.resources)
  }

  predicate Below(count: nat, limit: int) { limit > 0 ==> count < limit }

  predicate HasRoom(jobs: map<string, Job>, name: string, q: Queue, user: string) {
    && Below(|Pending(jobs, name)|, q.maxJobs)
    && Below(|InStates(jobs, name, {L.Running})|, q.maxRun)
    && Below(|OwnersIn(jobs, name, {L.Queued, L.Provisioning}, user)|, q.maxUserJobs)
    && Below(|OwnersIn(jobs, name, {L.Running}, user)|, q.maxUserRun)
  }

  /** `admitToQueue` returns no error. */
  predicate Admitted(jobs: map<string, Job>, name: string, q: Queue, j: Job, user: string, fromRoute: bool) {
    Suits(q, j, user, fromRoute) && HasRoom(jobs, name, q, user)
  }

  const CHECKS: seq<Refusal> :=
    [Disabled, NotStarted, RoutedOnly, TypeDisallowed, Full, RunFull, UserFull, UserRunFull, UserDenied, GroupDenied,
     HostDenied, OutOfRange]

  /** Which of the twelve checks fail, in the order in which the gate makes them. */
  ghost function Failures(jobs: map<string, Job>, name: string, q: Queue, j: Job, user: string,
                          fromRoute: bool): seq<bool> {
    [!q.enabled, !q.started, q.fromRouteOnly && !fromRoute, Disallows(q.disallowed, j.types),
     !Below(|Pending(jobs, name)|, q.maxJobs), !Below(|InStates(jobs, name, {L.Running})|, q.maxRun),
     !Below(|OwnersIn(jobs, name, {L.Queued, L.Provisioning}, user)|, q.maxUserJobs),
     !Below(|OwnersIn(jobs, name, {L.Running}, user)|, q.maxUserRun),
     !Admits(q.users, ExtractUser(user)), !Admits(q.groups, j.group), !AdmitsHost(q.hosts, j.host),
     !InInterval(q.least, q.most, j.resources)]
  }

  /** `r` is the first check to fail, or none does. */
  ghost predicate IsFirst(flags: seq<bool>, r: Option<Refusal>)
    requires |flags| == 12
  {
    match r
    case None => forall i :: 0 <= i < 12 ==> !flags[i]
    case Some(c) => exists i :: 0 <= i < 12 && CHECKS[i] == c && flags[i] && forall k :: 0 <= k < i ==> !flags[k]
  }

  lemma NoFailureMeansAdmitted(jobs: map<string, Job>, name: string, q: Queue, j: Job, user: string, fromRoute: bool)
    ensures var f := Failures(jobs, name, q, j, user, fromRoute);
            (forall i :: 0 <= i < 12 ==> !f[i]) <==> Admitted(jobs, name, q, j, user, fromRoute)
  {
    var f := Failures(jobs, name, q, j, user, fromRoute);
    var none := !f[0] && !f[1] && !f[2] && !f[3] && !f[4] && !f[5] && !f[6] && !f[7] && !f[8] && !f[9] && !f[10]
        && !f[11];
    assert none <==> Admitted(jobs, name, q, j, user, fromRoute);
    assert none <==> forall i :: 0 <= i < 12 ==> !f[i];
  }

  datatype Routing = Stays | To(queue: string) | NoRoute

  predicate Accepts(jobs: map<string, Job>, queues: map<string, Queue>, dest: string, j: Job, user: string) {
    dest in queues && Admitted(jobs, dest, queues[dest], j, user, true)
  }

  /** `routeJob`: the first destination that accepts. */
  ghost predicate RoutedTo(jobs: map<string, Job>, queues: map<string, Queue>, j: Job, user: string, r: Routing) {
    if j.queue !in queues || !queues[j.queue].isRoute then r == Stays
    else
      var d := queues[j.queue].destinations;
      match r
      case Stays => false
      case To(dest) =>
        exists i :: 0 <= i < |d| && d[i] == dest && Accepts(jobs, queues, dest, j, user)
                    && forall k :: 0 <= k < i ==> !Accepts(jobs, queues, d[k], j, user)
      case NoRoute => forall i :: 0 <= i < |d| ==> !Accepts(jobs, queues, d[i], j, user)
  }

  /** `finalizeRoute`: the queue the job ends up in, or None if it is rejected. */
  ghost predicate Finalized(jobs: map<string, Job>, queues: map<string, Queue>, j: Job, user: string,
                            r: Option<string>) {
    match r
    case Some(dest) =>
      || RoutedTo(jobs, queues, j, user, To(dest))
      || (RoutedTo(jobs, queues, j, user, Stays) && dest == j.queue && dest in queues
          && Admitted(jobs, dest, queues[dest], j, user, false))
    case None =>
      || RoutedTo(jobs, queues, j, user, NoRoute)
      || (RoutedTo(jobs, queues, j, user, Stays)
          && (j.queue in queues ==> !Admitted(jobs, j.queue, queues[j.queue], j, user, false)))
  }

  // ---------------------------------------------------------------- committing a job

  /** The state a committed job ends in. */
  function CommittedState(held: bool, waits: bool): L.JobState {
    if held then L.Held else if waits then L.Waiting else L.Queued
  }

  function Queued(jobs: map<string, Job>, id: string): map<string, Job>
    requires id in jobs
  {
    jobs[id := jobs[id].(state := L.Queued)]
  }

  /** `commitJobInstance`: the job is queued first, so the gate of its own queue counts it. */
  ghost predicate Committed(jobs: map<string, Job>, queues: map<string, Queue>, id: string, held: bool, waits: bool,
                            ok: bool, after: map<string, Job>)
    requires id in jobs
  {
    var queued := Queued(jobs, id);
    var j := queued[id];
    if ok then
      exists dest :: Finalized(queued, queues, j, j.owner, Some(dest))
                     && after == queued[id := j.(queue := dest, state := CommittedState(held, waits))]
    else Finalized(queued, queues, j, j.owner, None) && after == queued
  }

  ghost predicate WithinLimit(jobs: map<string, Job>, queues: map<string, Queue>, name: string) {
    name in queues && queues[name].maxJobs > 0 ==> |Pending(jobs, name)| <= queues[name].maxJobs
  }

  lemma FinalizedHasRoom(jobs: map<string, Job>, queues: map<string, Queue>, j: Job, user: string, dest: string)
    requires Finalized(jobs, queues, j, user, Some(dest))
    ensures dest in queues && Below(|Pending(jobs, dest)|, queues[dest].maxJobs)
    ensures j.queue in queues && !queues[j.queue].isRoute ==> dest == j.queue
  {
  }

  lemma CommittedTo(jobs: map<string, Job>, queues: map<string, Queue>, id: string, held: bool, waits: bool,
                    after: map<string, Job>) returns (dest: string)
    requires id in jobs && Committed(jobs, queues, id, held, waits, true, after)
    ensures after == jobs[id := jobs[id].(queue := dest, state := CommittedState(held, waits))]
    ensures dest in queues && Below(|Pending(Queued(jobs, id), dest)|, queues[dest].maxJobs)
    ensures jobs[id].queue in queues && !queues[jobs[id].queue].isRoute ==> dest == jobs[id].queue
  {
    var queued := Queued(jobs, id);
    var j := queued[id];
    dest :| Finalized(queued, queues, j, j.owner, Some(dest))
            && after == queued[id := j.(queue := dest, state := CommittedState(held, waits))];
    FinalizedHasRoom(queued, queues, j, j.owner, dest);
  }

  lemma PendingAfter(jobs: map<string, Job>, id: string, dest: string, state: L.JobState)
    requires id in jobs && Pends(state)
    ensures var queued, after := Pending(Queued(jobs, id), dest), jobs[id := jobs[id].(queue := dest, state := state)];
            Pending(after, dest) == queued + {id}
            && |Pending(after, dest)| == |queued| + if jobs[id].queue == dest then 0 else 1
  {
    var queued, after := Pending(Queued(jobs, id), dest), jobs[id := jobs[id].(queue := dest, state := state)];
    assert Pending(after, dest) == queued + {id};
    SizeWithAndWithout(queued, id);
  }

  /**
   A committed job leaves its queue within max_queuable; after a direct submission, which counts the job
   itself before the test, at least one place stays empty.
   */
  lemma CommitWithinLimit(jobs: map<string, Job>, queues: map<string, Queue>, id: string, held: bool, waits: bool,
                          after: map<string, Job>)
    requires id in jobs && Committed(jobs, queues, id, held, waits, true, after)
    ensures id in after && after[id].queue in queues && WithinLimit(after, queues, after[id].queue)
    ensures id in Pending(after, after[id].queue)
    ensures jobs[id].queue in queues && !queues[jobs[id].queue].isRoute ==> after[id].queue == jobs[id].queue
    ensures var q := queues[after[id].queue];
            after[id].queue == jobs[id].queue && q.maxJobs > 0 ==> |Pending(after, after[id].queue)| < q.maxJobs
  {
    var dest := CommittedTo(jobs, queues, id, held, waits, after);
    PendingAfter(jobs, id, dest, CommittedState(held, waits));
  }

  /** A commit takes no queue over max_queuable that was not over it. */
  lemma CommitKeepsOthersWithin(jobs: map<string, Job>, queues: map<string, Queue>, id: string, held: bool, waits: bool,
                                after: map<string, Job>, name: string)
    requires id in jobs && Committed(jobs, queues, id, held, waits, true, after) && WithinLimit(jobs, queues, name)
    ensures WithinLimit(after, queues, name)
  {
    CommitWithinLimit(jobs, queues, id, held, waits, after);
    if after[id].queue != name {
      assert Pending(after, name) <= Pending(jobs, name);
      SubsetSize(Pending(after, name), Pending(jobs, name));
    }
  }

  /** A rejected job that is then removed leaves every count where it was, or lower. */
  lemma RejectionAddsNothing(jobs: map<string, Job>, queues: map<string, Queue>, id: string, held: bool, waits: bool,
                             after: map<string, Job>, name: string)
    requires id in jobs && Committed(jobs, queues, id, held, waits, false, after)
    ensures after - {id} == jobs - {id} && |Pending(after - {id}, name)| <= |Pending(jobs, name)|
  {
    assert after - {id} == jobs - {id};
    SubsetSize(Pending(after - {id}, name), Pending(jobs, name));
  }

  lemma DirectPending(jobs: map<string, Job>, id: string)
    requires id in jobs
    ensures |Pending(Queued(jobs, id), jobs[id].queue)| == |Pending(jobs - {id}, jobs[id].queue)| + 1
  {
    var before := Pending(jobs - {id}, jobs[id].queue);
    assert Pending(Queued(jobs, id), jobs[id].queue) == before + {id};
    SizeWithAndWithout(before, id);
  }

  lemma DirectOwned(jobs: map<string, Job>, id: string)
    requires id in jobs
    ensures var name, owner, states := jobs[id].queue, jobs[id].owner, {L.Queued, L.Provisioning};
            |OwnersIn(Queued(jobs, id), name, states, owner)| == |OwnersIn(jobs - {id}, name, states, owner)| + 1
  {
    var before := OwnersIn(jobs - {id}, jobs[id].queue, {L.Queued, L.Provisioning}, jobs[id].owner);
    assert OwnersIn(Queued(jobs, id), jobs[id].queue, {L.Queued, L.Provisioning}, jobs[id].owner) == before + {id};
    SizeWithAndWithout(before, id);
  }

  lemma DirectRunning(jobs: map<string, Job>, id: string)
    requires id in jobs
    ensures var queued, others, name, owner := Queued(jobs, id), jobs - {id}, jobs[id].queue, jobs[id].owner;
            && InStates(queued, name, {L.Running}) == InStates(others, name, {L.Running})
            && OwnersIn(queued, name, {L.Running}, owner) == OwnersIn(others, name, {L.Running}, owner)
  {
  }

  /**
   A direct submission passes the gate if and only if the job suits the queue, the other running jobs
   leave room for one, and the other pending ones leave room for two, in the queue and of the user.
   */
  lemma DirectAcceptedIff(jobs: map<string, Job>, id: string, q: Queue)
    requires id in jobs
    ensures var j, others := jobs[id], jobs - {id};
            Admitted(Queued(jobs, id), j.queue, q, Queued(jobs, id)[id], j.owner, false) <==>
            && Suits(q, j, j.owner, false)
            && Below(|Pending(others, j.queue)| + 1, q.maxJobs)
            && Below(|InStates(others, j.queue, {L.Running})|, q.maxRun)
            && Below(|OwnersIn(others, j.queue, {L.Queued, L.Provisioning}, j.owner)| + 1, q.maxUserJobs)
            && Below(|OwnersIn(others, j.queue, {L.Running}, j.owner)|, q.maxUserRun)
  {
    DirectPending(jobs, id);
    DirectOwned(jobs, id);
    DirectRunning(jobs, id);
  }

  /** So a queue with max_queuable 1 takes no direct submission at all. */
  lemma DirectNeedsTwoPlaces(jobs: map<string, Job>, queues: map<string, Queue>, id: string, held: bool, waits: bool,
                             after: map<string, Job>)
    requires id in jobs && jobs[id].queue in queues && !queues[jobs[id].queue].isRoute
    requires Committed(jobs, queues, id, held, waits, true, after) && queues[jobs[id].queue].maxJobs > 0
    ensures queues[jobs[id].queue].maxJobs >= 2
  {
    CommitWithinLimit(jobs, queues, id, held, waits, after);
    SubsetSize({id}, Pending(after, after[id].queue));
  }
}
