/** The key=value file in which the server keeps a job, and what reading it back restores. */
module JobFile {
  import opened Decimal
  import opened Strings
  import opened Listing
  import opened StringOrder
  import J = JobArray

  // ---------------------------------------------------------------- jobs, by the keys of their fields

  datatype NumField = State | Substate | ExecPort | Session | ExitStatus | Priority | NodeCount | TaskCount

  datatype TextField = Queue | Owner | Name | EUser | EGroup | ExecHost | ProvisionVm | ProvisionNode

  datatype TimeField = CompTime | StartTime | QueueTime | CreateTime

  /** A Go time: seconds since 1970 and nanoseconds. */
  datatype Time = Time(sec: int, nano: nat)

  const ZERO_TIME := Time(-62135596800, 0)

  datatype Job = Job(nums: map<NumField, int>, texts: map<TextField, string>, times: map<TimeField, Time>,
                     req: map<string, string>, stdout: string, stderr: string)

  predicate IsInt64(n: int) { -TWO63 <= n < TWO63 }

  /** All fields are there and within the range of their type. */
  ghost predicate Whole(j: Job) {
    && (forall f :: f in j.nums && IsInt64(j.nums[f])) && (forall f :: f in j.texts)
    && (forall f :: f in j.times && IsInt64(j.times[f].sec))
  }

  // ---------------------------------------------------------------- keys

  function NumKey(f: NumField): string {
    match f
    case State => "state" case Substate => "substate" case ExecPort => "exec_port" case Session => "session"
    case ExitStatus => "exit_status" case Priority => "priority"
    case NodeCount => "node_count" case TaskCount => "task_count"
  }

  function TextKey(f: TextField): string {
    match f
    case Queue => "queue" case Owner => "owner" case Name => "name" case EUser => "euser" case EGroup => "egroup"
    case ExecHost => "exec_host" case ProvisionVm => "provision_vm" case ProvisionNode => "provision_node"
  }

  function TimeKey(f: TimeField): string {
    match f
    case CompTime => "comp_time" case StartTime => "start_time"
    case QueueTime => "qtime" case CreateTime => "create_time"
  }

  function NumOf(key: string): Option<NumField> {
    if key == "state" then Some(State) else if key == "substate" then Some(Substate)
    else if key == "exec_port" then Some(ExecPort) else if key == "session" then Some(Session)
    else if key == "exit_status" then Some(ExitStatus) else if key == "priority" then Some(Priority)
    else if key == "node_count" then Some(NodeCount) else if key == "task_count" then Some(TaskCount)
    else None
  }

  function TextOf(key: string): Option<TextField> {
    if key == "queue" then Some(Queue) else if key == "owner" then Some(Owner) else if key == "name" then Some(Name)
    else if key == "euser" then Some(EUser) else if key == "egroup" then Some(EGroup)
    else if key == "exec_host" then Some(ExecHost) else if key == "provision_vm" then Some(ProvisionVm)
    else if key == "provision_node" then Some(ProvisionNode)
    else None
  }

  function TimeOf(key: string): Option<TimeField> {
    if key == "comp_time" then Some(CompTime) else if key == "start_time" then Some(StartTime)
    else if key == "qtime" then Some(QueueTime) else if key == "create_time" then Some(CreateTime)
    else None
  }

  /** What the switch does with one key and value. */
  function Assign(j: Job, key: string, val: string): Job {
    match NumOf(key)
    case Some(f) => if J.ScanInt(val).Some? then j.(nums := j.nums[f := J.ScanInt(val).value.0]) else j
    case None =>
      match TextOf(key)
      case Some(f) => j.(texts := j.texts[f := val])
      case None =>
        match TimeOf(key)
        case Some(f) => if ParseInt(val).Some? then j.(times := j.times[f := Time(ParseInt(val).value, 0)]) else j
        case None => if HasPrefix(key, "req.") then j.(req := j.req[TrimPrefix(key, "req.") := val]) else j
  }

  lemma NumKeys(f: NumField)
    ensures NumOf(NumKey(f)) == Some(f)
  {
  }

  lemma TextKeys(f: TextField)
    ensures NumOf(TextKey(f)) == None && TextOf(TextKey(f)) == Some(f)
  {
  }

  lemma TimeKeys(f: TimeField)
    ensures NumOf(TimeKey(f)) == None && TextOf(TimeKey(f)) == None && TimeOf(TimeKey(f)) == Some(f)
  {
  }

  lemma ReqKeys(name: string)
    ensures var key := "req." + name;
            NumOf(key) == None && TextOf(key) == None && TimeOf(key) == None && HasPrefix(key, "req.")
                && TrimPrefix(key, "req.") == name
  {
    var key := "req." + name;
    assert key[0] == 'r' && key[1] == 'e' && key[2] == 'q' && key[3] == '.';
    assert key[4..] == name;
  }

  // ---------------------------------------------------------------- lines

  /** A line of the file. Of the lines it has no case for, only those for stdout and stderr are written. */
  datatype Line =
    | NumLine(num: NumField, n: int)
    | TextLine(text: TextField, s: string)
    | TimeLine(time: TimeField, sec: int)
    | ReqLine(name: string, value: string)
    | StdLine(err: bool, path: string)

  function Key(l: Line): string {
    match l
    case NumLine(f, _) => NumKey(f)
    case TextLine(f, _) => TextKey(f)
    case TimeLine(f, _) => TimeKey(f)
    case ReqLine(name, _) => "req." + name
    case StdLine(err, _) => if err then "stderr" else "stdout"
  }

  function Val(l: Line): string {
    match l
    case NumLine(_, n) => FormatInt(n)
    case TextLine(_, s) => s
    case TimeLine(_, sec) => FormatInt(sec)
    case ReqLine(_, v) => v
    case StdLine(_, p) => p
  }

  function Render(l: Line): string { Key(l) + "=" + Val(l) }

  function Rendered(lines: seq<Line>): string {
    if lines == [] then "" else Render(lines[0]) + "\n" + Rendered(lines[1..])
  }

  function Effect(j: Job, l: Line): Job {
    match l
    case NumLine(f, n) => j.(nums := j.nums[f := n])
    case TextLine(f, s) => j.(texts := j.texts[f := s])
    case TimeLine(f, sec) => j.(times := j.times[f := Time(sec, 0)])
    case ReqLine(name, v) => j.(req := j.req[name := v])
    case StdLine(_, _) => j
  }

  /** A value that survives: no newline and no white space at its end. */
  predicate Clean(s: string) { '\n' !in s && (s == "" || !IsSpace(s[|s| - 1])) }

  /** A resource name that survives. */
  predicate CleanName(s: string) { '\n' !in s && '=' !in s }

  predicate CleanLine(l: Line) {
    match l
    case NumLine(_, n) => IsInt64(n)
    case TextLine(_, s) => Clean(s)
    case TimeLine(_, sec) => IsInt64(sec)
    case ReqLine(name, v) => CleanName(name) && Clean(v)
    case StdLine(_, p) => '\n' !in p
  }

  lemma StdKeys(err: bool)
    ensures var key := if err then "stderr" else "stdout";
            NumOf(key) == None && TextOf(key) == None && TimeOf(key) == None && !HasPrefix(key, "req.")
  {
    var key := if err then "stderr" else "stdout";
    assert key[0] == 's' && "req."[0] == 'r';
  }

  /** Reading the key and value of a line has the line's effect. */
  lemma AssignIsEffect(j: Job, l: Line)
    requires CleanLine(l)
    ensures Assign(j, Key(l), Val(l)) == Effect(j, l)
  {
    match l
    case NumLine(f, n) =>
      NumKeys(f);
      assert FormatInt(n) + "" == FormatInt(n);
      J.ScanFormatted(n, "");
    case TextLine(f, s) => TextKeys(f);
    case TimeLine(f, sec) =>
      TimeKeys(f);
      ParseFormatInt(sec);
    case ReqLine(name, v) => ReqKeys(name);
    case StdLine(err, p) => StdKeys(err);
  }

  // ---------------------------------------------------------------- reading text

  /** One line of the text, as `deserializeJob` reads it. */
  function LoadLine(j: Job, text: string): Job {
    var line := TrimSpace(text);
    var eq := IndexOf(line, '=');
    if eq > 0 then Assign(j, line[..eq], line[eq + 1..]) else j
  }

  function Load(j: Job, texts: seq<string>): Job
    decreases |texts|
  {
    if texts == [] then j else Load(LoadLine(j, texts[0]), texts[1..])
  }

  function Deserialized(j: Job, data: string): Job { Load(j, Split(data, '\n')) }

  /** A key starts with a letter and holds neither '=' nor a newline. */
  predicate KeyLike(k: string) { k != "" && !IsSpace(k[0]) && '=' !in k && '\n' !in k }

  lemma NumKeyLike(f: NumField)
    ensures KeyLike(NumKey(f))
  {
  }

  lemma TextKeyLike(f: TextField)
    ensures KeyLike(TextKey(f))
  {
  }

  lemma TimeKeyLike(f: TimeField)
    ensures KeyLike(TimeKey(f))
  {
  }

  lemma KeyIsKeyLike(l: Line)
    requires CleanLine(l)
    ensures KeyLike(Key(l))
  {
    match l
    case NumLine(f, _) => NumKeyLike(f);
    case TextLine(f, _) => TextKeyLike(f);
    case TimeLine(f, _) => TimeKeyLike(f);
    case ReqLine(name, _) =>
    case StdLine(_, _) =>
  }

  lemma FormatIntClean(n: int)
    ensures Clean(FormatInt(n))
  {
    var d := FormatNat(if n < 0 then -n else n);
    assert IsDigit(d[|d| - 1]) && FormatInt(n)[|FormatInt(n)| - 1] == d[|d| - 1];
    assert '\n' !in d;
  }

  lemma ValIsClean(l: Line)
    requires CleanLine(l) && !l.StdLine?
    ensures Clean(Val(l))
  {
    match l
    case NumLine(_, n) => FormatIntClean(n);
    case TimeLine(_, n) => FormatIntClean(n);
    case TextLine(_, _) =>
    case ReqLine(_, _) =>
  }

  lemma LineSplits(k: string, v: string)
    requires KeyLike(k) && Clean(v)
    ensures var line := k + "=" + v;
            && TrimSpace(line) == line && IndexOf(line, '=') == |k| && line[..|k|] == k && line[|k| + 1..] == v
            && '\n' !in line
  {
    var line := k + "=" + v;
    assert line[0] == k[0] && line[|k|] == '=';
    assert line[|line| - 1] == if v == "" then '=' else v[|v| - 1];
    TrimNothing(line);
    var at := IndexOf(line, '=');
    assert forall i :: 0 <= i < |k| ==> line[i] == k[i];
  }

  lemma LoadRendered(j: Job, l: Line)
    requires CleanLine(l)
    ensures LoadLine(j, Render(l)) == Effect(j, l) && '\n' !in Render(l)
  {
    KeyIsKeyLike(l);
    if l.StdLine? {
      var v := LoadKeyed(j, Key(l), l.path);
      StdKeys(l.err);
    } else {
      ValIsClean(l);
      LineSplits(Key(l), Val(l));
      AssignIsEffect(j, l);
    }
  }

  function Effects(j: Job, lines: seq<Line>): Job
    decreases |lines|
  {
    if lines == [] then j else Effects(Effect(j, lines[0]), lines[1..])
  }

  lemma LoadCons(j: Job, j': Job, text: string, rest: seq<string>)
    requires LoadLine(j, text) == j'
    ensures Load(j, [text] + rest) == Load(j', rest)
  {
    assert ([text] + rest)[1..] == rest;
  }

  lemma LoadNothing(j: Job)
    ensures Deserialized(j, "") == j
  {
    assert Split("", '\n') == [""];
    assert TrimSpace("") == "";
    LoadCons(j, j, "", []);
    assert [""] + [] == [""];
  }

  /** Reading what was written has the effect of the lines, one after the other. */
  lemma {:induction false} ReadBack(j: Job, lines: seq<Line>)
    requires forall i :: 0 <= i < |lines| ==> CleanLine(lines[i])
    ensures Deserialized(j, Rendered(lines)) == Effects(j, lines)
    decreases |lines|
  {
    if lines == [] {
      LoadNothing(j);
    } else {
      var first, rest := Render(lines[0]), Rendered(lines[1..]);
      LoadRendered(j, lines[0]);
      SplitAtSep(first, '\n', rest);
      LoadCons(j, Effect(j, lines[0]), first, Split(rest, '\n'));
      ReadBack(Effect(j, lines[0]), lines[1..]);
    }
  }

  // ---------------------------------------------------------------- the lines of a job

  function TimeLines(j: Job, f: TimeField): seq<Line>
    requires f in j.times
  {
    if j.times[f] == ZERO_TIME then [] else [TimeLine(f, j.times[f].sec)]
  }

  function ReqLines(req: map<string, string>, order: seq<string>): seq<Line>
    requires forall k :: k in order ==> k in req
  {
    if order == [] then []
    else ReqLines(req, order[..|order| - 1]) + [ReqLine(order[|order| - 1], req[order[|order| - 1]])]
  }

  function GivenText(j: Job, f: TextField): seq<Line>
    requires f in j.texts
  {
    if j.texts[f] == "" then [] else [TextLine(f, j.texts[f])]
  }

  /** The lines written for every job. */
  function FixedLines(j: Job): seq<Line>
    requires Whole(j)
  {
    [NumLine(State, j.nums[State]), NumLine(Substate, j.nums[Substate]), TextLine(Queue, j.texts[Queue]),
     TextLine(Owner, j.texts[Owner]), TextLine(Name, j.texts[Name]), TextLine(EUser, j.texts[EUser]),
     TextLine(EGroup, j.texts[EGroup]), TextLine(ExecHost, j.texts[ExecHost]), StdLine(false, j.stdout),
     StdLine(true, j.stderr), NumLine(ExecPort, j.nums[ExecPort]), NumLine(Session, j.nums[Session]),
     NumLine(ExitStatus, j.nums[ExitStatus]), NumLine(Priority, j.nums[Priority]),
     NumLine(NodeCount, j.nums[NodeCount]), NumLine(TaskCount, j.nums[TaskCount])]
  }

  /** The lines of `serializeJob`, with the resources in `order`. */
  function LinesOf(j: Job, order: seq<string>): seq<Line>
    requires Whole(j) && forall k :: k in order ==> k in j.req
  {
    FixedLines(j) + TimeLines(j, CompTime) + TimeLines(j, StartTime) + TimeLines(j, QueueTime) +
        TimeLines(j, CreateTime)
    + ReqLines(j.req, order) + GivenText(j, ProvisionVm) + GivenText(j, ProvisionNode)
  }

  /** What a line says about the job is true. */
  ghost predicate Faithful(j: Job, l: Line) {
    match l
    case NumLine(f, n) => f in j.nums && n == j.nums[f]
    case TextLine(f, s) => f in j.texts && s == j.texts[f]
    case TimeLine(f, sec) => f in j.times && j.times[f] != ZERO_TIME && sec == j.times[f].sec
    case ReqLine(name, v) => name in j.req && v == j.req[name]
    case StdLine(err, p) => p == if err then j.stderr else j.stdout
  }

  ghost predicate AllFaithful(j: Job, lines: seq<Line>) { forall l :: l in lines ==> Faithful(j, l) }

  lemma {:induction false} ReqLinesExact(req: map<string, string>, order: seq<string>)
    requires forall k :: k in order ==> k in req
    ensures forall l :: l in ReqLines(req, order) <==> l.ReqLine? && l.name in order && l.value == req[l.name]
  {
    if order != [] {
      assert order == order[..|order| - 1] + [order[|order| - 1]];
      ReqLinesExact(req, order[..|order| - 1]);
    }
  }

  lemma LinesAreFaithful(j: Job, order: seq<string>)
    requires Whole(j) && forall k :: k in order ==> k in j.req
    ensures AllFaithful(j, LinesOf(j, order))
  {
    ReqLinesExact(j.req, order);
    assert AllFaithful(j, FixedLines(j));
  }

  // ---------------------------------------------------------------- what faithful lines restore

  lemma {:induction false} NumsAfter(j0: Job, j: Job, lines: seq<Line>, f: NumField)
    requires AllFaithful(j, lines) && f in j.nums && f in j0.nums
    ensures var r := Effects(j0, lines);
            f in r.nums && r.nums[f] == if NumLine(f, j.nums[f]) in lines then j.nums[f] else j0.nums[f]
    decreases |lines|
  {
    if lines != [] {
      assert lines == [lines[0]] + lines[1..];
      assert Faithful(j, lines[0]);
      NumsAfter(Effect(j0, lines[0]), j, lines[1..], f);
    }
  }

  lemma {:induction false} TextsAfter(j0: Job, j: Job, lines: seq<Line>, f: TextField)
    requires AllFaithful(j, lines) && f in j.texts && f in j0.texts
    ensures var r := Effects(j0, lines);
            f in r.texts && r.texts[f] == if TextLine(f, j.texts[f]) in lines then j.texts[f] else j0.texts[f]
    decreases |lines|
  {
    if lines != [] {
      assert lines == [lines[0]] + lines[1..];
      assert Faithful(j, lines[0]);
      TextsAfter(Effect(j0, lines[0]), j, lines[1..], f);
    }
  }

  lemma {:induction false} TimesAfter(j0: Job, j: Job, lines: seq<Line>, f: TimeField)
    requires AllFaithful(j, lines) && f in j.times && f in j0.times
    ensures var r := Effects(j0, lines);
            f in r.times && r.times[f] == if TimeLine(f, j.times[f].sec) in lines then Time(j.times[f].sec, 0)
                else j0.times[f]
    decreases |lines|
  {
    if lines != [] {
      assert lines == [lines[0]] + lines[1..];
      assert Faithful(j, lines[0]);
      TimesAfter(Effect(j0, lines[0]), j, lines[1..], f);
    }
  }

  lemma {:induction false} ReqAfter(j0: Job, j: Job, lines: seq<Line>, name: string)
    requires AllFaithful(j, lines)
    ensures var r, told := Effects(j0, lines), name in j.req && ReqLine(name, j.req[name]) in lines;
            && (name in r.req <==> told || name in j0.req)
            && (name in r.req ==> r.req[name] == if told then j.req[name] else j0.req[name])
            && r.stdout == j0.stdout && r.stderr == j0.stderr
    decreases |lines|
  {
    if lines != [] {
      assert lines == [lines[0]] + lines[1..];
      assert Faithful(j, lines[0]);
      ReqAfter(Effect(j0, lines[0]), j, lines[1..], name);
    }
  }

  /** A job as `NewJob` makes it: created now, and empty otherwise. */
  ghost predicate Blank(j: Job, now: Time) {
    && Whole(j) && (forall f :: j.texts[f] == "") && j.req == map[] && j.stdout == "" && j.stderr == ""
    && (forall f :: j.times[f] == if f == CreateTime then now else ZERO_TIME)
  }

  /** The values that are read back survive the file. */
  ghost predicate CleanTexts(j: Job) {
    && (forall f :: f in j.texts ==> Clean(j.texts[f]))
    && (forall k :: k in j.req ==> CleanName(k) && Clean(j.req[k]))
  }

  /** The paths that are not read back do not break their lines. */
  predicate OneLinePaths(j: Job) { '\n' !in j.stdout && '\n' !in j.stderr }

  ghost predicate CleanJob(j: Job) { CleanTexts(j) && OneLinePaths(j) }

  lemma LinesAreClean(j: Job, order: seq<string>, l: Line)
    requires Whole(j) && CleanJob(j) && (forall k :: k in order ==> k in j.req) && l in LinesOf(j, order)
    ensures CleanLine(l)
  {
    LinesAreFaithful(j, order);
    assert Faithful(j, l);
  }

  lemma FixedIn(j: Job, order: seq<string>, l: Line)
    requires Whole(j) && (forall k :: k in order ==> k in j.req) && l in FixedLines(j)
    ensures l in LinesOf(j, order)
  {
  }

  lemma NumIsWritten(j: Job, order: seq<string>, f: NumField)
    requires Whole(j) && forall k :: k in order ==> k in j.req
    ensures NumLine(f, j.nums[f]) in LinesOf(j, order)
  {
    var l := FixedLines(j);
    assert l[0] == NumLine(State, j.nums[State]) && l[1] == NumLine(Substate, j.nums[Substate]);
    assert l[10] == NumLine(ExecPort, j.nums[ExecPort]) && l[11] == NumLine(Session, j.nums[Session]);
    assert l[12] == NumLine(ExitStatus, j.nums[ExitStatus]) && l[13] == NumLine(Priority, j.nums[Priority]);
    assert l[14] == NumLine(NodeCount, j.nums[NodeCount]) && l[15] == NumLine(TaskCount, j.nums[TaskCount]);
    FixedIn(j, order, NumLine(f, j.nums[f]));
  }

  lemma TextIsWritten(j: Job, order: seq<string>, f: TextField)
    requires Whole(j) && forall k :: k in order ==> k in j.req
    ensures j.texts[f] == "" || TextLine(f, j.texts[f]) in LinesOf(j, order)
  {
    var l := FixedLines(j);
    assert l[2] == TextLine(Queue, j.texts[Queue]) && l[3] == TextLine(Owner, j.texts[Owner]);
    assert l[4] == TextLine(Name, j.texts[Name]) && l[5] == TextLine(EUser, j.texts[EUser]);
    assert l[6] == TextLine(EGroup, j.texts[EGroup]) && l[7] == TextLine(ExecHost, j.texts[ExecHost]);
    if f != ProvisionVm && f != ProvisionNode { FixedIn(j, order, TextLine(f, j.texts[f])); }
  }

  lemma TimeIsWritten(j: Job, order: seq<string>, f: TimeField)
    requires Whole(j) && forall k :: k in order ==> k in j.req
    ensures j.times[f] != ZERO_TIME ==> TimeLine(f, j.times[f].sec) in LinesOf(j, order)
  {
    if j.times[f] != ZERO_TIME { assert TimeLine(f, j.times[f].sec) in TimeLines(j, f); }
  }

  lemma ReqIsWritten(j: Job, order: seq<string>, name: string)
    requires Whole(j) && (forall k :: k in order ==> k in j.req) && name in order
    ensures ReqLine(name, j.req[name]) in LinesOf(j, order)
  {
    ReqLinesExact(j.req, order);
  }

  /** The time a field comes back with: to the second, and now for a creation time that was never set. */
  function TimeBack(f: TimeField, t: Time, now: Time): Time {
    if t != ZERO_TIME then Time(t.sec, 0) else if f == CreateTime then now else ZERO_TIME
  }

  /** `r` is the job again, but for the paths of stdout and stderr and the fractions of its times. */
  ghost predicate Restored(j: Job, r: Job, now: Time) {
    && (forall f :: f in j.nums && f in r.nums && r.nums[f] == j.nums[f])
    && (forall f :: f in j.texts && f in r.texts && r.texts[f] == j.texts[f])
    && (forall f :: f in j.times && f in r.times && r.times[f] == TimeBack(f, j.times[f], now))
    && r.req == j.req && r.stdout == "" && r.stderr == ""
  }

  lemma EffectsRestore(j: Job, blank: Job, now: Time, order: seq<string>)
    requires Whole(j) && Blank(blank, now) && Enumerates(order, j.req.Keys)
    ensures Restored(j, Effects(blank, LinesOf(j, order)), now)
  {
    var lines := LinesOf(j, order);
    var r := Effects(blank, lines);
    LinesAreFaithful(j, order);
    forall f: NumField ensures f in r.nums && r.nums[f] == j.nums[f] {
      NumsAfter(blank, j, lines, f);
      NumIsWritten(j, order, f);
    }
    forall f: TextField ensures f in r.texts && r.texts[f] == j.texts[f] {
      TextsAfter(blank, j, lines, f);
      TextIsWritten(j, order, f);
    }
    forall f: TimeField
      ensures f in r.times && r.times[f] == TimeBack(f, j.times[f], now)
    {
      TimeRestored(j, blank, now, order, f);
    }
    forall name ensures name in r.req <==> name in j.req { ReqRestored(j, blank, now, order, name); }
    forall name | name in j.req ensures r.req[name] == j.req[name] { ReqRestored(j, blank, now, order, name); }
    ReqRestored(j, blank, now, order, "");
  }

  lemma TimeRestored(j: Job, blank: Job, now: Time, order: seq<string>, f: TimeField)
    requires Whole(j) && Blank(blank, now) && Enumerates(order, j.req.Keys)
    ensures var r := Effects(blank, LinesOf(j, order)); f in r.times && r.times[f] == TimeBack(f, j.times[f], now)
  {
    var lines := LinesOf(j, order);
    LinesAreFaithful(j, order);
    TimesAfter(blank, j, lines, f);
    TimeIsWritten(j, order, f);
    if j.times[f] == ZERO_TIME && TimeLine(f, j.times[f].sec) in lines {
      assert Faithful(j, TimeLine(f, j.times[f].sec));
    }
  }

  lemma ReqRestored(j: Job, blank: Job, now: Time, order: seq<string>, name: string)
    requires Whole(j) && Blank(blank, now) && Enumerates(order, j.req.Keys)
    ensures var r := Effects(blank, LinesOf(j, order));
            && (name in r.req <==> name in j.req) && (name in j.req ==> r.req[name] == j.req[name])
            && r.stdout == "" && r.stderr == ""
  {
    LinesAreFaithful(j, order);
    ReqAfter(blank, j, LinesOf(j, order), name);
    if name in j.req { ReqIsWritten(j, order, name); }
  }

  /**
   Reading a written job back restores every field that has a case, times to the second, and the whole
   resource map, however large and in whatever order it was written.
   */
  lemma JobRoundTrip(j: Job, blank: Job, now: Time, order: seq<string>)
    requires Whole(j) && CleanJob(j) && Blank(blank, now) && Enumerates(order, j.req.Keys)
    ensures Restored(j, Deserialized(blank, Rendered(LinesOf(j, order))), now)
  {
    var lines := LinesOf(j, order);
    forall i | 0 <= i < |lines| ensures CleanLine(lines[i]) { LinesAreClean(j, order, lines[i]); }
    ReadBack(blank, lines);
    EffectsRestore(j, blank, now, order);
  }

  // ---------------------------------------------------------------- nothing else survives

  lemma TrimmedText(s: string)
    requires '\n' !in s
    ensures Clean(TrimSpace(s))
  {
    TrimRightEnds(TrimLeft(s));
    LeftIsSuffix(s);
  }

  lemma {:induction false} LeftIsSuffix(s: string)
    ensures |TrimLeft(s)| <= |s| && TrimLeft(s) == s[|s| - |TrimLeft(s)|..]
  {
    if s != "" && IsSpace(s[0]) { LeftIsSuffix(s[1..]); }
  }

  lemma AssignKeepsClean(j: Job, key: string, val: string)
    requires CleanTexts(j) && Clean(val) && CleanName(key)
    ensures CleanTexts(Assign(j, key, val))
  {
  }

  lemma LoadLineKeepsClean(j: Job, text: string)
    requires CleanTexts(j) && '\n' !in text
    ensures CleanTexts(LoadLine(j, text))
  {
    var line := TrimSpace(text);
    TrimmedText(text);
    var eq := IndexOf(line, '=');
    if eq > 0 { AssignKeepsClean(j, line[..eq], line[eq + 1..]); }
  }

  lemma {:induction false} LoadKeepsClean(j: Job, texts: seq<string>)
    requires CleanTexts(j) && forall i :: 0 <= i < |texts| ==> '\n' !in texts[i]
    ensures CleanTexts(Load(j, texts))
    decreases |texts|
  {
    if texts != [] {
      LoadLineKeepsClean(j, texts[0]);
      LoadKeepsClean(LoadLine(j, texts[0]), texts[1..]);
    }
  }

  /** Whatever the file, a job read from it has clean values. */
  lemma ReadJobIsClean(blank: Job, now: Time, data: string)
    requires Blank(blank, now)
    ensures CleanTexts(Deserialized(blank, data))
  {
    PiecesHaveNoSep(data, '\n');
    LoadKeepsClean(blank, Split(data, '\n'));
  }

  /** A job with one-line paths comes back from its file if and only if all its other texts are clean. */
  lemma JobRestoredIff(j: Job, blank: Job, now: Time, order: seq<string>)
    requires Whole(j) && OneLinePaths(j) && Blank(blank, now) && Enumerates(order, j.req.Keys)
    ensures Restored(j, Deserialized(blank, Rendered(LinesOf(j, order))), now) <==> CleanTexts(j)
  {
    var data := Rendered(LinesOf(j, order));
    if CleanTexts(j) { JobRoundTrip(j, blank, now, order); }
    ReadJobIsClean(blank, now, data);
  }

  // ---------------------------------------------------------------- values that do not survive

  lemma {:induction false} TrimRightEnds(s: string)
    ensures TrimRight(s) <= s && (TrimRight(s) == "" || !IsSpace(TrimRight(s)[|TrimRight(s)| - 1]))
    ensures forall i :: 0 <= i < |s| && !IsSpace(s[i]) ==> i < |TrimRight(s)|
  {
    if s != "" && IsSpace(s[|s| - 1]) { TrimRightEnds(s[..|s| - 1]); }
  }

  /** Trimming a line cuts white space off the end of its value and no more than the value. */
  lemma TrimmedTo(k: string, s: string)
    requires KeyLike(k)
    ensures var line, t := k + "=" + s, TrimSpace(k + "=" + s);
            |k| < |t| <= |line| && t == line[..|t|] && (t == line <==> s == "" || !IsSpace(s[|s| - 1]))
  {
    var line := k + "=" + s;
    assert line[0] == k[0] && line[|k|] == '=';
    assert TrimLeft(line) == line;
    TrimRightEnds(line);
    assert line[|line| - 1] == if s == "" then '=' else s[|s| - 1];
    if s == "" || !IsSpace(s[|s| - 1]) { TrimNothing(line); }
  }

  lemma TrimmedLine(k: string, s: string)
    requires KeyLike(k)
    ensures var t := TrimSpace(k + "=" + s);
            && IndexOf(t, '=') == |k| && t[..|k|] == k
            && (t[|k| + 1..] == s <==> s == "" || !IsSpace(s[|s| - 1]))
  {
    var line, t := k + "=" + s, TrimSpace(k + "=" + s);
    TrimmedTo(k, s);
    assert t[..|k|] == line[..|k|] == k && t[|k|] == line[|k|] == '=';
    KeyEnds(k, t);
    assert line[|k| + 1..] == s;
    if t != line { assert |t| < |line|; }
  }

  lemma LoadKeyed(j: Job, k: string, s: string) returns (v: string)
    requires KeyLike(k)
    ensures LoadLine(j, k + "=" + s) == Assign(j, k, v) && (v == s <==> s == "" || !IsSpace(s[|s| - 1]))
  {
    TrimmedLine(k, s);
    v := TrimSpace(k + "=" + s)[|k| + 1..];
  }

  lemma AssignText(j: Job, f: TextField, v: string)
    ensures Assign(j, TextKey(f), v) == j.(texts := j.texts[f := v])
  {
    TextKeys(f);
  }

  lemma TextLoads(j: Job, f: TextField, s: string) returns (v: string)
    ensures LoadLine(j, Render(TextLine(f, s))) == j.(texts := j.texts[f := v])
    ensures v == s <==> s == "" || !IsSpace(s[|s| - 1])
  {
    TextKeyLike(f);
    v := LoadKeyed(j, TextKey(f), s);
    AssignText(j, f, v);
    assert Render(TextLine(f, s)) == TextKey(f) + "=" + s;
  }

  /** A text without newlines comes back as it was if and only if it does not end in white space. */
  lemma TextSurvivesIff(j: Job, f: TextField, s: string)
    requires '\n' !in s
    ensures var r := LoadLine(j, Render(TextLine(f, s))); f in r.texts && (r.texts[f] == s <==> Clean(s))
  {
    var v := TextLoads(j, f, s);
  }

  lemma KeyEnds(k: string, t: string)
    requires '=' !in k && |k| < |t| && t[..|k|] == k && t[|k|] == '='
    ensures IndexOf(t, '=') == |k|
  {
    assert forall i :: 0 <= i < |k| ==> t[i] == k[i];
  }

  // ---------------------------------------------------------------- the loops

  /** `deserializeJob` on the job that `NewJob` made. */
  method DeserializeJob(blank: Job, data: string) returns (j: Job)
    ensures j == Deserialized(blank, data)
  {
    j := blank;
    var texts := Split(data, '\n');
    for i := 0 to |texts|
      invariant Load(j, texts[i..]) == Load(blank, texts)
    {
      assert texts[i..][1..] == texts[i + 1..];
      j := LoadLine(j, texts[i]);
    }
  }

  method WriteLines(lines: seq<Line>) returns (text: string)
    ensures text == Rendered(lines)
  {
    text := "";
    for i := 0 to |lines|
      invariant text == Rendered(lines[..i])
    {
      RenderedNext(lines, i);
      text := text + Render(lines[i]) + "\n";
    }
    assert lines[..|lines|] == lines;
  }

  /** The text of a job: its lines, with the resources by name. */
  ghost predicate IsTextOf(text: string, j: Job, order: seq<string>)
    requires Whole(j)
  {
    Lists(order, j.req.Keys) && text == Rendered(LinesOf(j, order))
  }

  /** `serializeJob`. */
  method SerializeJob(j: Job) returns (text: string, ghost order: seq<string>)
    requires Whole(j)
    ensures IsTextOf(text, j, order)
  {
    var keys := SortedKeys(j.req.Keys);
    order := keys;
    text := WriteLines(LinesOf(j, keys));
  }

  /** A job has one text, in whatever order its resource map is walked. */
  lemma OneText(j: Job, text: string, order: seq<string>, other: string, order': seq<string>)
    requires Whole(j) && IsTextOf(text, j, order) && IsTextOf(other, j, order')
    ensures text == other
  {
    ListedOneWay(order, order', j.req.Keys);
  }

  /** Writing a job and reading it into a new one. */
  method SaveAndLoad(j: Job, blank: Job, ghost now: Time) returns (r: Job)
    requires Whole(j) && CleanJob(j) && Blank(blank, now)
    ensures Restored(j, r, now)
  {
    var text;
    ghost var order;
    text, order := SerializeJob(j);
    JobRoundTrip(j, blank, now, order);
    r := DeserializeJob(blank, text);
  }

  lemma RenderedNext(lines: seq<Line>, i: nat)
    requires i < |lines|
    ensures Rendered(lines[..i + 1]) == Rendered(lines[..i]) + Render(lines[i]) + "\n"
  {
    assert lines[..i + 1] == lines[..i] + [lines[i]];
    RenderedMore(lines[..i], lines[i]);
  }

  lemma {:induction false} RenderedMore(lines: seq<Line>, l: Line)
    ensures Rendered(lines + [l]) == Rendered(lines) + Render(l) + "\n"
  {
    if lines == [] {
      assert [l][1..] == [];
    } else {
      assert (lines + [l])[1..] == lines[1..] + [l];
      RenderedMore(lines[1..], l);
    }
  }
}
