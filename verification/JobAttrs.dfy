/** How the attributes of a qalter change what the slot ledger knows of a job. */
module JobAttrs {
  import opened Decimal
  import opened Strings
  import opened SlotLedger
  import NR = NodeRequest

  /** An attribute with its resource, if it names one, and its value. */
  datatype Attr = Attr(name: string, resource: Option<string>, value: string)

  /** The job and the resources it asks for. */
  datatype Asking = Asking(job: Job, request: NR.Request)

  /** The job's CPUs, nodes and processors per node are those of its resources. */
  predicate Reflects(a: Asking) {
    a.job.cpus == NR.RequestedCpus(a.request) && (a.job.nodeCount, a.job.ppn) == NR.Layout(a.request)
  }

  function WithRequest(j: Job, r: NR.Request): Asking {
    Asking(j.(cpus := NR.RequestedCpus(r), nodeCount := NR.Layout(r).0, ppn := NR.Layout(r).1), r)
  }

  function Resourced(a: Asking, resource: string, value: string): Asking {
    if resource == "nodes" then WithRequest(a.job, a.request.(nodes := value))
    else if resource == "select" then WithRequest(a.job, a.request.(select := value))
    else if resource == "ncpus" then WithRequest(a.job, a.request.(ncpus := value))
    else a
  }

  function Hosts(execHost: string): seq<string> { if execHost == "" then [] else NR.HostNames(execHost) }

  /** One case of `applyJobAttrs`; `future` tells which times are to come. */
  function AlterOne(a: Asking, x: Attr, future: int -> bool): Asking {
    if x.name == "Job_Owner" then a.(job := a.job.(owner := x.value))
    else if x.name == "egroup" then a.(job := a.job.(group := x.value))
    else if x.name == "queue" then a.(job := a.job.(queue := x.value))
    else if x.name == "exec_host" then a.(job := a.job.(hosts := Hosts(x.value)))
    else if x.name == "Hold_Types" then
      if x.value != "" && x.value != "n" then a.(job := a.job.(state := Held)) else a
    else if x.name == "Execution_Time" then
      if ParseInt(x.value).Some? && future(ParseInt(x.value).value) then a.(job := a.job.(state := Waiting)) else a
    else if x.name == "Resource_List" && x.resource.Some? then Resourced(a, x.resource.value, x.value)
    else a
  }

  function AlterAll(a: Asking, attrs: seq<Attr>, future: int -> bool): Asking {
    if attrs == [] then a else AlterOne(AlterAll(a, attrs[..|attrs| - 1], future), attrs[|attrs| - 1], future)
  }

  /** The loop of `applyJobAttrs`. */
  method ApplyJobAttrs(before: Asking, attrs: seq<Attr>, future: int -> bool) returns (after: Asking)
    ensures after == AlterAll(before, attrs, future)
    ensures after.job.state == Running ==> before.job.state == Running
    ensures Reflects(before) ==> Reflects(after)
  {
    after := before;
    for i := 0 to |attrs|
      invariant after == AlterAll(before, attrs[..i], future)
    {
      assert attrs[..i + 1][..i] == attrs[..i];
      after := AlterOne(after, attrs[i], future);
    }
    assert attrs[..|attrs|] == attrs;
    AlteredStartsNothing(before, attrs, future);
    if Reflects(before) { AlteredReflects(before, attrs, future); }
  }

  lemma WithRequestReflects(j: Job, r: NR.Request)
    ensures Reflects(WithRequest(j, r)) && WithRequest(j, r).job.cpus >= 1
  {
  }

  /** The case writes none of the three numbers and none of the resources. */
  predicate SameNumbers(a: Asking, b: Asking) {
    && a.request == b.request && a.job.cpus == b.job.cpus
    && a.job.nodeCount == b.job.nodeCount && a.job.ppn == b.job.ppn
  }

  lemma AlterOneEither(a: Asking, x: Attr, future: int -> bool)
    ensures var b := AlterOne(a, x, future); SameNumbers(a, b) || b == WithRequest(a.job, b.request)
  {
  }

  lemma AlterOneReflects(a: Asking, x: Attr, future: int -> bool)
    requires Reflects(a)
    ensures Reflects(AlterOne(a, x, future))
  {
    var b := AlterOne(a, x, future);
    AlterOneEither(a, x, future);
    if !SameNumbers(a, b) { WithRequestReflects(a.job, b.request); }
  }

  /** Whatever the attributes, the job still reflects its resources. */
  lemma {:induction false} AlteredReflects(a: Asking, attrs: seq<Attr>, future: int -> bool)
    requires Reflects(a)
    ensures Reflects(AlterAll(a, attrs, future))
  {
    if attrs != [] {
      var m := |attrs| - 1;
      AlteredReflects(a, attrs[..m], future);
      AlterOneReflects(AlterAll(a, attrs[..m], future), attrs[m], future);
    }
  }

  /** Whatever the attributes, none makes a job run. */
  lemma {:induction false} AlteredStartsNothing(a: Asking, attrs: seq<Attr>, future: int -> bool)
    ensures AlterAll(a, attrs, future).job.state == Running ==> a.job.state == Running
  {
    if attrs != [] { AlteredStartsNothing(a, attrs[..|attrs| - 1], future); }
  }
}
