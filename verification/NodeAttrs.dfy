/** How qmgr attributes and the status reports of a MOM change the slots and the state flags of a node. */
module NodeAttrs {
  import opened Strings
  import opened NodeState
  import opened SlotLedger
  import opened SlotSteps
  import J = JobArray

  type Flags = set<Flag>

  // ---------------------------------------------------------------- qmgr

  datatype Attr = Attr(name: string, value: string)

  /** The value of %d, or what was there before. */
  function Scanned(text: string, otherwise: int): int {
    if J.ScanInt(text).Some? then J.ScanInt(text).value.0 else otherwise
  }

  /** The flags an administrator sets and clears. */
  const SETTABLE: Flags := {Offline, Drain, Excl}

  function StateSet(flags: Flags, value: string): Flags {
    var v := ToLower(value);
    if v == "offline" then flags + {Offline}
    else if v == "drain" then flags + {Drain}
    else if v == "excl" || v == "e" || v == "exclusive" then flags + {Excl}
    else if v == "free" || v == "resume" || v == "clear" then flags - SETTABLE
    else flags
  }

  /** One case of `applyNodeAttrs`. */
  function QmgrOne(n: Node, a: Attr): Node {
    if a.name == "state" then n.(flags := StateSet(n.flags, a.value))
    else if a.name == "np" then
      var p := Scanned(a.value, n.numProcs);
      n.(numProcs := p, slotsTotal := p)
    else n
  }

  function QmgrAll(n: Node, attrs: seq<Attr>): Node {
    if attrs == [] then n else QmgrOne(QmgrAll(n, attrs[..|attrs| - 1]), attrs[|attrs| - 1])
  }

  /** No list of attributes touches the jobs, the job-exclusive flag or a flag that is not the administrator's. */
  lemma {:induction false} QmgrKeepsRest(n: Node, attrs: seq<Attr>)
    ensures var m := QmgrAll(n, attrs);
            && m.listed == n.listed && m.slotsUsed == n.slotsUsed && m.jobExclusive == n.jobExclusive
            && m.flags - SETTABLE == n.flags - SETTABLE
  {
    if attrs != [] { QmgrKeepsRest(n, attrs[..|attrs| - 1]); }
  }

  /** After "free", "resume" or "clear" at the end, whatever came before, none of the administrator's flags is set. */
  lemma FreeClears(n: Node, attrs: seq<Attr>, value: string)
    requires ToLower(value) == "free" || ToLower(value) == "resume" || ToLower(value) == "clear"
    ensures QmgrAll(n, attrs + [Attr("state", value)]).flags == n.flags - SETTABLE
  {
    QmgrKeepsRest(n, attrs);
    assert (attrs + [Attr("state", value)])[..|attrs|] == attrs;
  }

  // ---------------------------------------------------------------- status reports

  /** The flags that a report leaves alone. */
  const ADMIN: Flags := {Offline, Reserve, Drain, Excl}

  predicate IsState(s: string) { s == "free" || s == "busy" || s == "down" }

  function StateFlags(s: string): Flags { if s == "busy" then {Busy} else if s == "down" then {Down} else {} }

  /** `applyStateString`. */
  function WithState(n: Node, s: string): Node {
    Reported(n, IsState(s), if IsState(s) then n.flags * ADMIN + StateFlags(s) else n.flags)
  }

  /** The key and value of an item "key=value", if it is one. */
  function KeyOf(item: string): string { if IndexOf(item, '=') >= 0 then item[..IndexOf(item, '=')] else "" }

  function ValueOf(item: string): string { if IndexOf(item, '=') >= 0 then item[IndexOf(item, '=') + 1..] else "" }

  function StatusOne(n: Node, item: string): Node {
    if IndexOf(item, '=') < 0 then n
    else if KeyOf(item) == "state" then WithState(n, ValueOf(item))
    else if KeyOf(item) == "ncpus" then
      var p := Scanned(ValueOf(item), n.numProcs);
      n.(numProcs := p, slotsTotal := p)
    else if KeyOf(item) == "np" then n.(slotsTotal := Scanned(ValueOf(item), n.slotsTotal))
    else n
  }

  function StatusAll(n: Node, items: seq<string>): Node {
    if items == [] then n else StatusOne(StatusAll(n, items[..|items| - 1]), items[|items| - 1])
  }

  /** A node that was heard from is up, unless it is offline. */
  function Heard(n: Node): Node { if Down in n.flags && Offline !in n.flags then n.(flags := n.flags - {Down}) else n }

  /** `UpdateFromStatus`. */
  function Updated(n: Node, items: seq<string>): Node { Heard(StatusAll(n, items)) }

  lemma {:induction false} StatusKeepsRest(n: Node, items: seq<string>)
    ensures var m := StatusAll(n, items);
            m.listed == n.listed && m.slotsUsed == n.slotsUsed && m.flags * ADMIN == n.flags * ADMIN
  {
    if items != [] { StatusKeepsRest(n, items[..|items| - 1]); }
  }

  /** No report changes what the administrator set, or the jobs and their slots. */
  lemma UpdateKeepsAdmin(n: Node, items: seq<string>)
    ensures var m := Updated(n, items);
            m.listed == n.listed && m.slotsUsed == n.slotsUsed && m.flags * ADMIN == n.flags * ADMIN
  {
    StatusKeepsRest(n, items);
  }

  /** A node is down after a report if and only if it is offline and was, or was reported, down. */
  lemma DownAfterIff(n: Node, items: seq<string>)
    ensures Down in Updated(n, items).flags <==> Down in StatusAll(n, items).flags && Offline in n.flags
  {
    StatusKeepsRest(n, items);
    assert Offline in StatusAll(n, items).flags <==> Offline in StatusAll(n, items).flags * ADMIN;
    assert Offline in n.flags <==> Offline in n.flags * ADMIN;
  }

  predicate HasState(items: seq<string>) {
    exists i :: 0 <= i < |items| && IndexOf(items[i], '=') >= 0 && KeyOf(items[i]) == "state"
  }

  lemma {:induction false} StateItemExcludes(n: Node, items: seq<string>)
    requires n.listed != [] && (n.jobExclusive || HasState(items))
    ensures StatusAll(n, items).jobExclusive
  {
    if items != [] {
      var m := |items| - 1;
      StatusKeepsRest(n, items[..m]);
      if n.jobExclusive || HasState(items[..m]) {
        StateItemExcludes(n, items[..m]);
      } else {
        var i :| 0 <= i < |items| && IndexOf(items[i], '=') >= 0 && KeyOf(items[i]) == "state";
      }
    }
  }

  /** A report with a state makes a node with jobs job-exclusive, however many slots it has left. */
  lemma ReportExcludes(n: Node, items: seq<string>)
    requires n.listed != [] && HasState(items)
    ensures Updated(n, items).jobExclusive
  {
    StateItemExcludes(n, items);
  }
}
