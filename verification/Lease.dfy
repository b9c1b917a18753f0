/**
 The high-availability leader lease: any number of servers share one database row and one clock.
 An attempt samples the clock, conditionally overwrites the row, reads the row back and sets the
 server's active flag, in four separate steps that interleave freely with those of other servers.
 Database errors, crashes and restarts can happen at every step, and the statement of an attempt that
 was given up may still take effect at any later time.
 */
module Lease {
  import opened Decimal

  /** Seconds a lease lasts without renewal. */
  const TTL: nat := 10

  /** Milliseconds: the timeout of one attempt. */
  const ATTEMPT_LIMIT: nat := 5000

  datatype Row = Row(holder: string, heartbeat: nat, expires: nat)

  /** `time.Now().Unix()` when the clock shows `ms` milliseconds. */
  function Seconds(ms: nat): nat { ms / 1000 }

  /** The upsert: it takes the row when there is none, when it has expired, or when it is ours. */
  function Upsert(row: Option<Row>, holder: string, now: nat): (r: Option<Row>)
    ensures r.Some?
    ensures r != row ==>
            r.value.holder == holder && (row.None? || row.value.expires < now || row.value.holder == holder)
  {
    if row.None? || row.value.expires < now || row.value.holder == holder
    then Some(Row(holder, now, now + TTL)) else row
  }

  // ---------------------------------------------------------------- one server at a time

  /** The shared table, used by one caller from start to end of an attempt. */
  class Store {
    var row: Option<Row>

    constructor ()
      ensures row == None
    {
      row := None;
    }

    /** True exactly when the lease was free, expired or already ours; the row is ours afterwards exactly then. */
    method TryAcquireLease(holder: string, now: nat) returns (acquired: bool)
      modifies this
      ensures row == Upsert(old(row), holder, now)
      ensures acquired <==> old(row).None? || old(row).value.expires < now || old(row).value.holder == holder
      ensures acquired <==> row == Some(Row(holder, now, now + TTL)) && row.value.holder == holder
    {
      var expires := now + TTL;
      if row.None? || row.value.expires < now || row.value.holder == holder {
        row := Some(Row(holder, now, expires));
      }
      var h := row.value.holder;
      acquired := h == holder;
    }
  }

  class HaServer {
    const holder: string
    var haActive: bool

    constructor (name: string)
      ensures holder == name && !haActive
    {
      holder := name;
      haActive := false;
    }

    /** One tick of the leader loop; on a database error the flag stays, though the upsert may have been applied. */
    method Tick(store: Store, now: nat, db: Database)
      modifies this, store
      ensures store.row == if db.WriteError? then old(store.row) else Upsert(old(store.row), holder, now)
      ensures !db.Sound? ==> haActive == old(haActive)
      ensures db.Sound? ==> (haActive <==> store.row.value.holder == holder)
    {
      match db {
        case Sound => haActive := store.TryAcquireLease(holder, now);
        case WriteError =>
        case ReadError => var _ := store.TryAcquireLease(holder, now);
      }
    }
  }

  /** Whether the database answers, fails before the upsert, or fails between the upsert and the read-back. */
  datatype Database = Sound | WriteError | ReadError

  // ---------------------------------------------------------------- interleaved servers

  /** Where a server stands in its current attempt; `start` is the clock it sampled. */
  datatype Phase = Idle | Sampled(start: nat) | Written(start: nat) | Answered(start: nat, acquired: bool)

  /**
   `grant` is the expiry second of the last attempt that found this server to be the holder; `lost` are the
   clock readings of given-up attempts whose upsert may still take effect.
   */
  datatype Server = Server(up: bool, active: bool, phase: Phase, grant: Option<nat>, lastStart: nat, lost: set<nat>)

  datatype State = State(clock: nat, row: Option<Row>, servers: map<string, Server>)

  datatype Step =
    | Pass(ms: nat)
    | Sample(s: string)
    | Write(s: string)
    | WriteFails(s: string)              // the statement may have taken effect, or do so later, or never
    | LateWrite(s: string, start: nat)   // it takes effect now
    | ReadBack(s: string)
    | ReadFails(s: string)
    | SetFlag(s: string)
    | Crash(s: string)
    | Restart(s: string)

  const FRESH := Server(true, false, Idle, None, 0, {})

  ghost predicate Init(st: State) {
    st.row == None && forall s :: s in st.servers ==> st.servers[s] == FRESH
  }

  predicate Enabled(st: State, step: Step) {
    match step
    case Pass(_) => true
    case Sample(s) => s in st.servers && st.servers[s].up && st.servers[s].phase.Idle?
    case Write(s) => s in st.servers && st.servers[s].up && st.servers[s].phase.Sampled?
    case WriteFails(s) => s in st.servers && st.servers[s].up && st.servers[s].phase.Sampled?
    case LateWrite(s, start) => s in st.servers && start in st.servers[s].lost
    case ReadBack(s) => s in st.servers && st.servers[s].up && st.servers[s].phase.Written? && st.row.Some?
    case ReadFails(s) => s in st.servers && st.servers[s].up && st.servers[s].phase.Written?
    case SetFlag(s) => s in st.servers && st.servers[s].up && st.servers[s].phase.Answered?
    case Crash(s) => s in st.servers && st.servers[s].up
    case Restart(s) => s in st.servers && !st.servers[s].up
  }

  function Put(st: State, s: string, server: Server): State { st.(servers := st.servers[s := server]) }

  /** A statement in flight is let go. */
  function GivenUp(v: Server): Server { if v.phase.Sampled? then v.(lost := v.lost + {v.phase.start}) else v }

  function After(st: State, step: Step): State
    requires Enabled(st, step)
  {
    match step
    case Pass(ms) => st.(clock := st.clock + ms)
    case Sample(s) => Put(st, s, st.servers[s].(phase := Sampled(st.clock)))
    case Write(s) =>
      var start := st.servers[s].phase.start;
      Put(st.(row := Upsert(st.row, s, Seconds(start))), s, st.servers[s].(phase := Written(start)))
    case WriteFails(s) => Put(st, s, GivenUp(st.servers[s]).(phase := Idle, lastStart := st.servers[s].phase.start))
    case LateWrite(s, start) =>
      Put(st.(row := Upsert(st.row, s, Seconds(start))), s, st.servers[s].(lost := st.servers[s].lost - {start}))
    case ReadBack(s) =>
      var start := st.servers[s].phase.start;
      var acquired := st.row.value.holder == s;
      Put(st, s, st.servers[s].(phase := Answered(start, acquired),
                                grant := if acquired then Some(Seconds(start) + TTL) else st.servers[s].grant))
    case ReadFails(s) => Put(st, s, st.servers[s].(phase := Idle, lastStart := st.servers[s].phase.start))
    case SetFlag(s) =>
      Put(st, s, st.servers[s].(phase := Idle, active := st.servers[s].phase.acquired,
                                lastStart := st.servers[s].phase.start))
    case Crash(s) => Put(st, s, Server(false, false, Idle, None, st.servers[s].lastStart, GivenUp(st.servers[s]).lost))
    case Restart(s) => Put(st, s, Server(true, false, Idle, None, st.clock, st.servers[s].lost))
  }

  /** A run: an initial state and any finite interleaving of enabled steps. */
  ghost predicate IsRun(states: seq<State>, steps: seq<Step>) { IsPath(states, steps) && Init(states[0]) }

  ghost predicate IsPath(states: seq<State>, steps: seq<Step>) {
    && |states| == |steps| + 1
    && forall i :: 0 <= i < |steps| ==> Enabled(states[i], steps[i]) && states[i + 1] == After(states[i], steps[i])
  }

  /** A server that is within the lifetime of the last lease it was granted. */
  predicate Inside(st: State, s: string) {
    s in st.servers && st.servers[s].up && st.servers[s].grant.Some? && Seconds(st.clock) <= st.servers[s].grant.value
  }

  predicate Active(st: State, s: string) { s in st.servers && st.servers[s].up && st.servers[s].active }

  /** What `handleRunJob` asks of a server of a high-availability pair before it dispatches. */
  predicate PassesRunJobGate(st: State, s: string) { Active(st, s) }

  // ---------------------------------------------------------------- safety of the lease

  predicate OwnsRow(st: State, s: string) { st.row.Some? && st.row.value.holder == s }

  ghost predicate ServerInv(st: State, s: string)
    requires s in st.servers
  {
    var v := st.servers[s];
    && (v.grant.Some? && Seconds(st.clock) <= v.grant.value ==> OwnsRow(st, s) && v.grant.value <= st.row.value.expires)
    && (!v.phase.Idle? ==> v.phase.start <= st.clock)
    && (forall x :: x in v.lost ==> x <= if v.phase.Idle? then st.clock else v.phase.start)
    && (v.phase.Sampled? && OwnsRow(st, s) ==> st.row.value.expires <= Seconds(v.phase.start) + TTL)
    && (v.phase.Written? && OwnsRow(st, s) ==> st.row.value.expires == Seconds(v.phase.start) + TTL)
    && (v.active ==> v.grant.Some?)
    && (v.phase.Answered? && v.phase.acquired ==> v.grant == Some(Seconds(v.phase.start) + TTL))
  }

  ghost predicate Inv(st: State) {
    && (st.row.Some? ==> st.row.value.expires <= Seconds(st.clock) + TTL)
    && forall s :: s in st.servers ==> ServerInv(st, s)
  }

  lemma InvInit(st: State)
    requires Init(st)
    ensures Inv(st)
  {
  }

  lemma SecondsMonotone(a: nat, b: nat)
    requires a <= b
    ensures Seconds(a) <= Seconds(b)
  {
  }

  /**
   A late upsert that undoes something: a later attempt of the same server has been written and not read
   back, or the server is inside a lease that the late upsert cuts short.
   */
  predicate Stale(st: State, step: Step) {
    && step.LateWrite? && Enabled(st, step)
    && (st.row.None? || st.row.value.expires < Seconds(step.start) || st.row.value.holder == step.s)
    && var v, e := st.servers[step.s], Seconds(step.start) + TTL;
       || (v.phase.Written? && e != Seconds(v.phase.start) + TTL)
       || (v.grant.Some? && Seconds(st.clock) <= v.grant.value && e < v.grant.value)
  }

  /** A write of `s` leaves every other server's claim standing: it only takes rows that have expired. */
  lemma ServerStep(st: State, step: Step, t: string)
    requires Inv(st) && Enabled(st, step) && !Stale(st, step) && t in st.servers
    ensures ServerInv(After(st, step), t)
  {
    if step.LateWrite? {
      LateStep(st, step.s, step.start, t);
    } else if step.Write? {
      WriteStep(st, step.s, t);
    } else if step.Pass? {
      assert ServerInv(st, t);
      SecondsMonotone(st.clock, After(st, step).clock);
    } else {
      OwnStep(st, step, t);
    }
  }

  /** A step that leaves the clock and the row alone. */
  lemma OwnStep(st: State, step: Step, t: string)
    requires Inv(st) && Enabled(st, step) && t in st.servers
    requires !step.Pass? && !step.Write? && !step.LateWrite?
    ensures ServerInv(After(st, step), t)
  {
    if step.s != t {
      Bystander(st, After(st, step), t);
    } else if step.WriteFails? || step.Crash? {
      GiveUpStep(st, step);
    } else if step.ReadBack? {
      ReadBackStep(st, t);
    } else {
      assert ServerInv(st, t);
    }
  }

  lemma Bystander(st: State, st': State, t: string)
    requires Inv(st) && t in st.servers && t in st'.servers && st'.servers[t] == st.servers[t]
    requires st'.clock == st.clock && st'.row == st.row
    ensures ServerInv(st', t)
  {
    assert ServerInv(st, t);
  }

  lemma GiveUpStep(st: State, step: Step)
    requires Inv(st) && Enabled(st, step) && (step.WriteFails? || step.Crash?)
    ensures ServerInv(After(st, step), step.s)
  {
    assert ServerInv(st, step.s);
  }

  lemma ReadBackStep(st: State, t: string)
    requires Inv(st) && Enabled(st, ReadBack(t))
    ensures ServerInv(After(st, ReadBack(t)), t)
  {
    assert ServerInv(st, t);
  }

  lemma WriteStep(st: State, s: string, t: string)
    requires Inv(st) && Enabled(st, Write(s)) && t in st.servers
    ensures ServerInv(After(st, Write(s)), t)
  {
    assert ServerInv(st, s) && ServerInv(st, t);
    SecondsMonotone(st.servers[s].phase.start, st.clock);
  }

  lemma LateStep(st: State, s: string, start: nat, t: string)
    requires Inv(st) && Enabled(st, LateWrite(s, start)) && !Stale(st, LateWrite(s, start)) && t in st.servers
    ensures ServerInv(After(st, LateWrite(s, start)), t)
  {
    var v := st.servers[s];
    assert ServerInv(st, s) && ServerInv(st, t);
    SecondsMonotone(start, st.clock);
    if !v.phase.Idle? { SecondsMonotone(start, v.phase.start); }
  }

  lemma InvStep(st: State, step: Step)
    requires Inv(st) && Enabled(st, step) && !Stale(st, step)
    ensures Inv(After(st, step))
  {
    var st' := After(st, step);
    SecondsMonotone(st.clock, st'.clock);
    if step.Write? {
      assert ServerInv(st, step.s);
      SecondsMonotone(st.servers[step.s].phase.start, st.clock);
    } else if step.LateWrite? {
      assert ServerInv(st, step.s);
      SecondsMonotone(step.start, st.clock);
    }
    forall t | t in st'.servers ensures ServerInv(st', t) { ServerStep(st, step, t); }
  }

  /** Of all steps only a stale late upsert breaks the invariant, and each one does. */
  lemma InvKeptIff(st: State, step: Step)
    requires Inv(st) && Enabled(st, step)
    ensures Inv(After(st, step)) <==> !Stale(st, step)
  {
    if Stale(st, step) {
      assert !ServerInv(After(st, step), step.s);
    } else {
      InvStep(st, step);
    }
  }

  /** The upserts of given-up attempts do no harm: each comes before the next attempt of its server, or never. */
  ghost predicate Orderly(states: seq<State>, steps: seq<Step>) {
    |states| == |steps| + 1 && forall i :: 0 <= i < |steps| ==> !Stale(states[i], steps[i])
  }

  lemma {:induction false} InvAlways(states: seq<State>, steps: seq<Step>, i: nat)
    requires IsRun(states, steps) && Orderly(states, steps) && i < |states|
    ensures Inv(states[i])
  {
    if i == 0 {
      InvInit(states[0]);
    } else {
      InvAlways(states, steps, i - 1);
      InvStep(states[i - 1], steps[i - 1]);
    }
  }

  /** In no state of any run without stale upserts are two servers both within their last granted lease. */
  lemma LeaseSafety(states: seq<State>, steps: seq<Step>, i: nat, s: string, t: string)
    requires IsRun(states, steps) && Orderly(states, steps) && i < |states|
    requires Inside(states[i], s) && Inside(states[i], t)
    ensures s == t
  {
    InvAlways(states, steps, i);
    assert ServerInv(states[i], s) && ServerInv(states[i], t);
  }

  /** Two active servers at once mean that one of them is past its lease and has not stood down. */
  lemma TwoActiveMeansOverdue(states: seq<State>, steps: seq<Step>, i: nat, s: string, t: string)
    requires IsRun(states, steps) && Orderly(states, steps) && i < |states|
    requires s != t && Active(states[i], s) && Active(states[i], t)
    ensures exists u | u in {s, t} ::
              states[i].servers[u].grant.Some? && states[i].servers[u].grant.value < Seconds(states[i].clock)
  {
    InvAlways(states, steps, i);
    assert ServerInv(states[i], s) && ServerInv(states[i], t);
    if Inside(states[i], s) && Inside(states[i], t) { LeaseSafety(states, steps, i, s, t); }
    assert s in {s, t} && t in {s, t};
  }

  // ---------------------------------------------------------------- one active server

  /**
   Every active server renews within its lease or has crashed: the clock never passes the grant of a server
   that is active, and a server that turns active does so inside its grant. Database errors, slow attempts
   and long gaps between attempts are all allowed within that.
   */
  ghost predicate Renews(st: State, step: Step) {
    match step
    case Pass(ms) =>
      forall s :: Active(st, s) ==>
        st.servers[s].grant.Some? && Seconds(st.clock + ms) <= st.servers[s].grant.value
    case SetFlag(s) => s in st.servers && st.servers[s].phase.Answered? && st.servers[s].phase.acquired ==>
        Inside(st, s)
    case _ => true
  }

  ghost predicate RenewingRun(states: seq<State>, steps: seq<Step>) {
    && IsRun(states, steps) && Orderly(states, steps)
    && forall i :: 0 <= i < |steps| ==> Renews(states[i], steps[i])
  }

  lemma ActiveStep(st: State, step: Step, s: string)
    requires Inv(st) && Enabled(st, step) && Renews(st, step)
    requires Active(st, s) ==> Inside(st, s)
    ensures Active(After(st, step), s) ==> Inside(After(st, step), s)
  {
    if s in st.servers {
      assert ServerInv(st, s);
      SecondsMonotone(st.clock, After(st, step).clock);
    }
  }

  /** An active server of a renewing run is always inside its lease. */
  lemma {:induction false} ActiveIsInside(states: seq<State>, steps: seq<Step>, i: nat, s: string)
    requires RenewingRun(states, steps) && i < |states|
    ensures Active(states[i], s) ==> Inside(states[i], s)
  {
    if i > 0 {
      ActiveIsInside(states, steps, i - 1, s);
      InvAlways(states, steps, i - 1);
      ActiveStep(states[i - 1], steps[i - 1], s);
    }
  }

  /** In every state of every renewing run at most one server passes the RunJob gate. */
  lemma OneActive(states: seq<State>, steps: seq<Step>, i: nat, s: string, t: string)
    requires RenewingRun(states, steps) && i < |states|
    requires PassesRunJobGate(states[i], s) && PassesRunJobGate(states[i], t)
    ensures s == t
  {
    ActiveIsInside(states, steps, i, s);
    ActiveIsInside(states, steps, i, t);
    LeaseSafety(states, steps, i, s, t);
  }

  // ---------------------------------------------------------------- a timing that renews

  /**
   A timing under which servers renew: an attempt ends within its timeout, an active server starts its
   next attempt within the same limit of the previous start, and its database calls do not fail.
   */
  ghost predicate Punctual(st: State, step: Step) {
    match step
    case Pass(ms) =>
      forall s :: s in st.servers && st.servers[s].up ==>
        var v := st.servers[s];
        && (!v.phase.Idle? ==> st.clock + ms <= v.phase.start + ATTEMPT_LIMIT)
        && (v.phase.Idle? && v.active ==> st.clock + ms <= v.lastStart + ATTEMPT_LIMIT)
    case WriteFails(s) => !Active(st, s)
    case ReadFails(s) => !Active(st, s)
    case _ => true
  }

  ghost predicate PunctualRun(states: seq<State>, steps: seq<Step>) {
    && IsRun(states, steps) && Orderly(states, steps)
    && forall i :: 0 <= i < |steps| ==> Punctual(states[i], steps[i])
  }

  ghost predicate TimingInv(st: State, s: string)
    requires s in st.servers
  {
    var v := st.servers[s];
    && (v.up && !v.phase.Idle? ==> st.clock <= v.phase.start + ATTEMPT_LIMIT)
    && (v.up && v.active ==> v.grant.Some? && Seconds(v.lastStart) + TTL <= v.grant.value)
    && (v.up && v.active && v.phase.Idle? ==> st.clock <= v.lastStart + ATTEMPT_LIMIT)
    && (v.up && v.active && !v.phase.Idle? ==> v.phase.start <= v.lastStart + ATTEMPT_LIMIT)
    && (v.phase.Answered? && v.phase.acquired ==> v.grant == Some(Seconds(v.phase.start) + TTL))
  }

  lemma TimingStep(st: State, step: Step, s: string)
    requires Inv(st) && Enabled(st, step) && Punctual(st, step)
    requires s in st.servers && TimingInv(st, s)
    ensures TimingInv(After(st, step), s)
  {
    assert ServerInv(st, s);
    if !step.Pass? && step.s != s { assert After(st, step).servers[s] == st.servers[s]; }
  }

  lemma SameServers(st: State, step: Step)
    requires Enabled(st, step)
    ensures After(st, step).servers.Keys == st.servers.Keys
  {
  }

  lemma {:induction false} TimingAlways(states: seq<State>, steps: seq<Step>, i: nat, s: string)
    requires PunctualRun(states, steps) && i < |states| && s in states[i].servers
    ensures TimingInv(states[i], s)
  {
    if i > 0 {
      InvAlways(states, steps, i - 1);
      SameServers(states[i - 1], steps[i - 1]);
      TimingAlways(states, steps, i - 1, s);
      TimingStep(states[i - 1], steps[i - 1], s);
    }
  }

  lemma PunctualStepRenews(st: State, step: Step)
    requires Inv(st) && Enabled(st, step) && Punctual(st, step)
    requires forall s :: s in st.servers ==> TimingInv(st, s)
    ensures Renews(st, step)
  {
    if step.Pass? {
      forall s | Active(st, s)
        ensures st.servers[s].grant.Some? && Seconds(st.clock + step.ms) <= st.servers[s].grant.value
      {
        assert TimingInv(st, s);
        SecondsMonotone(st.clock + step.ms, st.servers[s].lastStart + 1000 * TTL);
      }
    } else if step.SetFlag? {
      assert TimingInv(st, step.s);
      SecondsMonotone(st.clock, st.servers[step.s].phase.start + 1000 * TTL);
    }
  }

  /** A punctual run renews, so it has at most one active server. */
  lemma PunctualRunRenews(states: seq<State>, steps: seq<Step>)
    requires PunctualRun(states, steps)
    ensures RenewingRun(states, steps)
  {
    forall i | 0 <= i < |steps| ensures Renews(states[i], steps[i]) {
      InvAlways(states, steps, i);
      forall s | s in states[i].servers ensures TimingInv(states[i], s) { TimingAlways(states, steps, i, s); }
      PunctualStepRenews(states[i], steps[i]);
    }
  }

  // ---------------------------------------------------------------- where it fails

  /** The state after a list of steps, if each is enabled in turn. */
  function Replay(st: State, steps: seq<Step>): Option<State>
    decreases |steps|
  {
    if steps == [] then Some(st)
    else if !Enabled(st, steps[0]) then None
    else Replay(After(st, steps[0]), steps[1..])
  }

  lemma {:induction false} ReplayIsPath(st: State, steps: seq<Step>) returns (states: seq<State>)
    requires Replay(st, steps).Some?
    ensures IsPath(states, steps) && states[0] == st && states[|steps|] == Replay(st, steps).value
    decreases |steps|
  {
    if steps == [] {
      states := [st];
    } else {
      var rest := ReplayIsPath(After(st, steps[0]), steps[1..]);
      states := [st] + rest;
      forall i | 0 <= i < |steps|
        ensures Enabled(states[i], steps[i]) && states[i + 1] == After(states[i], steps[i])
      {
        if i > 0 { assert steps[i] == steps[1..][i - 1]; }
      }
    }
  }

  lemma {:induction false} ReplayAppend(st: State, a: seq<Step>, b: seq<Step>)
    requires Replay(st, a).Some?
    ensures Replay(st, a + b) == Replay(Replay(st, a).value, b)
    decreases |a|
  {
    if a == [] {
      assert a + b == b;
    } else {
      assert (a + b)[1..] == a[1..] + b;
      ReplayAppend(After(st, a[0]), a[1..], b);
    }
  }

  /** A whole successful attempt of one server. */
  function Attempt(s: string): seq<Step> { [Sample(s), Write(s), ReadBack(s), SetFlag(s)] }

  lemma AttemptAcquires(st: State, s: string)
    requires s in st.servers && st.servers[s].up && st.servers[s].phase.Idle?
    requires st.row.None? || st.row.value.expires < Seconds(st.clock)
    ensures Replay(st, Attempt(s)).Some?
    ensures var end := Replay(st, Attempt(s)).value;
            && end.servers == st.servers[s := Server(true, true, Idle, Some(Seconds(st.clock) + TTL), st.clock,
                                                     st.servers[s].lost)]
            && end.clock == st.clock && end.row == Some(Row(s, Seconds(st.clock), Seconds(st.clock) + TTL))
  {
    var s1 := After(st, Sample(s));
    var s2 := After(s1, Write(s));
    var s3 := After(s2, ReadBack(s));
    var s4 := After(s3, SetFlag(s));
    assert Replay(s4, []) == Some(s4);
    assert Replay(s3, [SetFlag(s)]) == Some(s4);
    assert Replay(s2, [ReadBack(s), SetFlag(s)]) == Replay(s3, [ReadBack(s), SetFlag(s)][1..]);
    assert Replay(s1, [Write(s), ReadBack(s), SetFlag(s)]) == Replay(s2, [Write(s), ReadBack(s), SetFlag(s)][1..]);
    assert Replay(st, Attempt(s)) == Replay(s1, Attempt(s)[1..]);
  }

  /**
   From any state with an active server, silence of that server past the expiry of the row and one
   attempt of any idle server make both of them active: nothing but punctuality keeps the gate single.
   */
  lemma SilentTakeover(st: State, s: string, t: string)
    requires Active(st, s) && t in st.servers && st.servers[t].up && st.servers[t].phase.Idle? && t != s
    requires st.row.Some?
    ensures var steps := [Pass(1000 * (st.row.value.expires + 1))] + Attempt(t);
            && Replay(st, steps).Some?
            && Active(Replay(st, steps).value, s) && Active(Replay(st, steps).value, t)
  {
    var pass := Pass(1000 * (st.row.value.expires + 1));
    var late := After(st, pass);
    assert Replay(late, []) == Some(late);
    assert Replay(st, [pass]) == Replay(late, [pass][1..]);
    AttemptAcquires(late, t);
    ReplayAppend(st, [pass], Attempt(t));
  }

  lemma OverlapPossible(s: string, t: string)
    requires s != t
    ensures exists states, steps :: IsRun(states, steps) && Active(states[|steps|], s) && Active(states[|steps|], t)
  {
    var st := State(0, None, map[s := FRESH, t := FRESH]);
    AttemptAcquires(st, s);
    var mid := Replay(st, Attempt(s)).value;
    SilentTakeover(mid, s, t);
    var more := [Pass(1000 * (mid.row.value.expires + 1))] + Attempt(t);
    ReplayAppend(st, Attempt(s), more);
    var steps := Attempt(s) + more;
    var states := ReplayIsPath(st, steps);
    assert IsRun(states, steps);
  }

  lemma ReplayOne(st: State, step: Step)
    requires Enabled(st, step)
    ensures Replay(st, [step]) == Some(After(st, step))
  {
    assert [step][1..] == [];
    assert Replay(After(st, step), []) == Some(After(st, step));
  }

  lemma ReplayTwo(st: State, a: Step, b: Step)
    requires Enabled(st, a) && Enabled(After(st, a), b)
    ensures Replay(st, [a, b]) == Some(After(After(st, a), b))
  {
    ReplayOne(After(st, a), b);
    assert [a, b][1..] == [b];
  }

  /** An attempt given up at the start, five seconds, and a successful attempt. */
  lemma RenewedAfterLoss(st: State, s: string) returns (steps: seq<Step>)
    requires st.clock == 0 && st.row == None && s in st.servers && st.servers[s] == FRESH
    ensures Replay(st, steps).Some?
    ensures var end := Replay(st, steps).value;
            && end.servers == st.servers[s := Server(true, true, Idle, Some(15), 5000, {0})]
            && end.clock == 5000 && end.row == Some(Row(s, 5, 15))
  {
    ReplayTwo(st, Sample(s), WriteFails(s));
    var lost := After(After(st, Sample(s)), WriteFails(s));
    ReplayOne(lost, Pass(5000));
    ReplayAppend(st, [Sample(s), WriteFails(s)], [Pass(5000)]);
    var late := After(lost, Pass(5000));
    var none: set<nat> := {};
    assert none + {0} == {0};
    assert late.servers[s] == FRESH.(lost := {0});
    assert late.servers == st.servers[s := FRESH.(lost := {0})];
    AttemptAcquires(late, s);
    ReplayAppend(st, [Sample(s), WriteFails(s)] + [Pass(5000)], Attempt(s));
    steps := [Sample(s), WriteFails(s)] + [Pass(5000)] + Attempt(s);
  }

  /** The lost upsert cuts the row back, and six seconds later another server takes it. */
  lemma TakenAfterCut(st: State, s: string, t: string) returns (steps: seq<Step>)
    requires s != t && {s, t} <= st.servers.Keys && st.clock == 5000 && st.row == Some(Row(s, 5, 15))
    requires st.servers[s] == Server(true, true, Idle, Some(15), 5000, {0}) && st.servers[t] == FRESH
    ensures Replay(st, steps).Some? && Inside(Replay(st, steps).value, s) && Inside(Replay(st, steps).value, t)
  {
    ReplayTwo(st, LateWrite(s, 0), Pass(6000));
    var late := After(After(st, LateWrite(s, 0)), Pass(6000));
    AttemptAcquires(late, t);
    ReplayAppend(st, [LateWrite(s, 0), Pass(6000)], Attempt(t));
    steps := [LateWrite(s, 0), Pass(6000)] + Attempt(t);
  }

  /**
   An upsert that arrives late: a server gives an attempt up at 0 and renews at 5 with a lease until 15, the
   lost upsert then cuts the row back to 10, and at 11 another server takes it. Both are inside their leases.
   */
  lemma StaleUpsertBreaksLease(s: string, t: string)
    requires s != t
    ensures exists states, steps ::
              IsRun(states, steps) && Inside(states[|steps|], s) && Inside(states[|steps|], t)
  {
    var st := State(0, None, map[s := FRESH, t := FRESH]);
    var a := RenewedAfterLoss(st, s);
    var b := TakenAfterCut(Replay(st, a).value, s, t);
    ReplayAppend(st, a, b);
    var states := ReplayIsPath(st, a + b);
    assert IsRun(states, a + b);
  }
}
