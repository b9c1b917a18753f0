/** How the server reads a job's node request, and how it writes and reads exec_host. */
module NodeRequest {
  import opened Decimal
  import opened Strings

  function PositiveOr(text: string, otherwise: nat): nat {
    match ParseInt(TrimSpace(text))
    case Some(n) => if n > 0 then n else otherwise
    case None => otherwise
  }

  /** The ppn after the pieces "ppn=M" of a chunk; a later one replaces an earlier. */
  function PpnOf(pieces: seq<string>): (ppn: nat)
    ensures ppn >= 1
  {
    if pieces == [] then 1
    else
      var before := PpnOf(pieces[..|pieces| - 1]);
      var kv := TrimSpace(pieces[|pieces| - 1]);
      if HasPrefix(kv, "ppn=") then PositiveOr(kv[4..], before) else before
  }

  /** `parseNodeSelectSpec`: nodes and processors per node of the first chunk. */
  function ParsedSpec(spec: string): (r: (nat, nat))
    ensures r.0 >= 1 && r.1 >= 1
  {
    var text := TrimSpace(spec);
    if text == "" then (1, 1)
    else
      var parts := Split(Split(text, '+')[0], ':');
      (PositiveOr(parts[0], 1), PpnOf(parts[1..]))
  }

  /** The loop over the pieces of a chunk. */
  method ParsePpn(pieces: seq<string>) returns (ppn: nat)
    ensures ppn == PpnOf(pieces)
  {
    ppn := 1;
    for i := 0 to |pieces|
      invariant ppn == PpnOf(pieces[..i])
    {
      assert pieces[..i + 1][..i] == pieces[..i];
      var kv := TrimSpace(pieces[i]);
      if HasPrefix(kv, "ppn=") { ppn := PositiveOr(kv[4..], ppn); }
    }
    assert pieces[..|pieces|] == pieces;
  }

  method ParseNodeSelectSpec(spec: string) returns (nodes: nat, ppn: nat)
    ensures (nodes, ppn) == ParsedSpec(spec)
  {
    nodes, ppn := 1, 1;
    var text := TrimSpace(spec);
    if text != "" {
      var parts := Split(Split(text, '+')[0], ':');
      nodes := PositiveOr(parts[0], 1);
      ppn := ParsePpn(parts[1..]);
    }
  }

  lemma PositiveOrOfFormat(n: nat, otherwise: nat)
    requires 1 <= n < TWO63
    ensures PositiveOr(FormatInt(n), otherwise) == n
  {
    DigitsAreText(FormatInt(n), ' ');
    ParseFormatInt(n);
  }

  lemma PpnOfOne(ppn: nat)
    requires 1 <= ppn < TWO63
    ensures PpnOf(["ppn=" + FormatInt(ppn)]) == ppn
  {
    var m := FormatInt(ppn);
    var kv := "ppn=" + m;
    assert IsDigit(m[|m| - 1]) && kv[|kv| - 1] == m[|m| - 1];
    TrimNothing(kv);
    assert kv[4..] == m;
    PositiveOrOfFormat(ppn, 1);
    var one := [kv];
    assert one[..0] == [];
  }

  lemma SpecPieces(n: string, kv: string)
    requires n != "" && AllDigits(n) && kv != "" && !IsSpace(kv[|kv| - 1]) && '+' !in kv && ':' !in kv
    ensures TrimSpace(n + ":" + kv) == n + ":" + kv
    ensures Split(Split(n + ":" + kv, '+')[0], ':') == [n, kv]
  {
    var text := n + ":" + kv;
    DigitsAreText(n, '+');
    DigitsAreText(n, ':');
    assert IsDigit(n[0]) && text[0] == n[0] && text[|text| - 1] == kv[|kv| - 1];
    TrimNothing(text);
    SplitOne(text, '+');
    SplitAtSep(n, ':', kv);
    SplitOne(kv, ':');
  }

  /** What a user writes, "N:ppn=M", is read as N nodes with M processors each. */
  lemma SpecRoundTrip(nodes: nat, ppn: nat)
    requires 1 <= nodes < TWO63 && 1 <= ppn < TWO63
    ensures ParsedSpec(FormatInt(nodes) + ":" + ("ppn=" + FormatInt(ppn))) == (nodes, ppn)
  {
    var n, m := FormatInt(nodes), FormatInt(ppn);
    var kv := "ppn=" + m;
    DigitsAreText(m, '+');
    DigitsAreText(m, ':');
    assert IsDigit(m[|m| - 1]) && kv[|kv| - 1] == m[|m| - 1];
    SpecPieces(n, kv);
    assert [n, kv][1..] == [kv];
    PositiveOrOfFormat(nodes, 1);
    PpnOfOne(ppn);
  }

  // ---------------------------------------------------------------- the request of a job

  /** Resource_List.nodes, .select and .ncpus; "" if absent. */
  datatype Request = Request(nodes: string, select: string, ncpus: string)

  /** `jobRequestedCPUs`. */
  function RequestedCpus(r: Request): (cpus: nat)
    ensures cpus >= 1
  {
    if r.nodes != "" then ParsedSpec(r.nodes).1
    else match ParseInt(r.ncpus)
      case Some(n) => if n > 0 then n else 1
      case None => 1
  }

  /** `jobNodeRequest`. */
  function Layout(r: Request): (nat, nat) {
    var spec := if r.nodes != "" then r.nodes else r.select;
    if spec == "" then (1, RequestedCpus(r)) else ParsedSpec(spec)
  }

  /** The slots RunJob charges on each node. */
  function ChargedSlots(r: Request): nat { if Layout(r).0 > 1 then Layout(r).1 else RequestedCpus(r) }

  /** The slots the requeue of a job that its MOM does not know releases on each node. */
  function ReclaimedSlots(r: Request): nat { if Layout(r).1 < 1 then 1 else Layout(r).1 }

  /** The job asks through `select` alone, with another number of processors per node than its ncpus. */
  predicate SelectsOtherwise(r: Request) {
    r.nodes == "" && r.select != "" && ParsedSpec(r.select).1 != RequestedCpus(r)
  }

  /**
   RunJob charges what the end of the job, a delete, a rerun and a dead node release, if and only if the job does
   not select otherwise for several nodes; it charges what a reclaim releases, if and only if it does not select
   otherwise for one node. All of them agree if and only if it does not select otherwise.
   */
  lemma ChargedIsReleasedIff(r: Request)
    ensures ChargedSlots(r) == RequestedCpus(r) <==> !(SelectsOtherwise(r) && ParsedSpec(r.select).0 > 1)
    ensures ChargedSlots(r) == ReclaimedSlots(r) <==> !(SelectsOtherwise(r) && ParsedSpec(r.select).0 == 1)
    ensures ChargedSlots(r) == RequestedCpus(r) == ReclaimedSlots(r) <==> !SelectsOtherwise(r)
  {
  }

  /** Two nodes with four processors each through `select`: RunJob charges four slots on each and one is released. */
  lemma SelectIsNotReleased()
    ensures ParsedSpec("2:ppn=4") == (2, 4)
    ensures var r := Request("", "2:ppn=4", ""); ChargedSlots(r) == 4 && RequestedCpus(r) == 1
  {
    assert FormatInt(2) == "2" && FormatInt(4) == "4";
    assert FormatInt(2) + ":" + ("ppn=" + FormatInt(4)) == "2:ppn=4";
    SpecRoundTrip(2, 4);
    assert ParseInt("") == None;
  }

  /** One node with four processors through `select`: one slot is charged and a reclaim releases four. */
  lemma SelectIsReclaimedFourfold()
    ensures var r := Request("", "1:ppn=4", ""); ChargedSlots(r) == 1 && RequestedCpus(r) == 1 && ReclaimedSlots(r) == 4
  {
    assert FormatInt(1) == "1" && FormatInt(4) == "4";
    assert FormatInt(1) + ":" + ("ppn=" + FormatInt(4)) == "1:ppn=4";
    SpecRoundTrip(1, 4);
    assert ParseInt("") == None;
  }

  // ---------------------------------------------------------------- exec_host

  function WithSlot(names: seq<string>): seq<string> {
    if names == [] then [] else [names[0] + "/0"] + WithSlot(names[1..])
  }

  function ExecHost(names: seq<string>): string { Join(WithSlot(names), "+") }

  function FirstPieces(parts: seq<string>): seq<string> {
    if parts == [] then [] else [Split(parts[0], '/')[0]] + FirstPieces(parts[1..])
  }

  function HostNames(execHost: string): seq<string> { FirstPieces(Split(execHost, '+')) }

  lemma {:induction false} WithSlotAt(names: seq<string>)
    ensures |WithSlot(names)| == |names| && forall i :: 0 <= i < |names| ==> WithSlot(names)[i] == names[i] + "/0"
  {
    if names != [] { WithSlotAt(names[1..]); }
  }

  lemma NameOfPiece(name: string)
    requires '/' !in name
    ensures Split(name + "/0", '/')[0] == name
  {
    SplitAtSep(name, '/', "0");
    assert name + "/0" == name + ['/'] + "0";
  }

  lemma {:induction false} FirstPiecesOfWithSlot(names: seq<string>)
    requires forall i :: 0 <= i < |names| ==> '/' !in names[i]
    ensures FirstPieces(WithSlot(names)) == names
  {
    if names != [] {
      FirstPiecesOfWithSlot(names[1..]);
      NameOfPiece(names[0]);
      assert WithSlot(names)[1..] == WithSlot(names[1..]);
    }
  }

  /** The release paths find again exactly the nodes that were written into exec_host. */
  lemma ExecHostRoundTrip(names: seq<string>)
    requires names != [] && forall i :: 0 <= i < |names| ==> '/' !in names[i] && '+' !in names[i]
    ensures HostNames(ExecHost(names)) == names
  {
    FirstPiecesOfWithSlot(names);
    WithSlotAt(names);
    SplitJoin(WithSlot(names), '+');
  }
}
