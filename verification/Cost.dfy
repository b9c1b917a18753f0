/** Cost attribution: each node's bill is shared among the accounts that used it. Amounts are real numbers. */
module Cost {
  import opened Listing

  datatype Usage = Usage(account: string, node: string, coreSeconds: real)

  datatype Bill = Bill(node: string, usd: real)

  datatype Allocation = Allocation(accounts: map<string, real>, overhead: real, byNode: map<string, map<string, real>>,
                                   coreSeconds: map<string, real>)

  /** The account under which usage without an account is shown. */
  function AcctKey(a: string): string { if a == "" then "(unknown)" else a }

  // ---------------------------------------------------------------- maps of amounts

  function Get(m: map<string, real>, k: string): real { if k in m then m[k] else 0.0 }

  function Add(m: map<string, real>, k: string, x: real): map<string, real> { m[k := Get(m, k) + x] }

  ghost function Pick(m: map<string, real>): (k: string)
    requires m != map[]
    ensures k in m
  {
    assert m.Keys != {};
    var k :| k in m;
    k
  }

  /** The sum of the values. */
  ghost function Sum(m: map<string, real>): real
    decreases |m|
  {
    if m == map[] then 0.0 else m[Pick(m)] + Sum(m - {Pick(m)})
  }

  lemma {:induction false} SumWithout(m: map<string, real>, k: string)
    requires k in m
    ensures Sum(m) == m[k] + Sum(m - {k})
    decreases |m|
  {
    var p := Pick(m);
    if p != k {
      SumWithout(m - {p}, k);
      SumWithout(m - {k}, p);
      assert m - {p} - {k} == m - {k} - {p};
    }
  }

  lemma SumAdd(m: map<string, real>, k: string, x: real)
    ensures Sum(Add(m, k, x)) == Sum(m) + x
  {
    SumWithout(Add(m, k, x), k);
    if k in m {
      SumWithout(m, k);
      assert Add(m, k, x) - {k} == m - {k};
    } else {
      assert Add(m, k, x) - {k} == m;
    }
  }

  ghost function SumList(m: map<string, real>, order: seq<string>): real {
    if order == [] then 0.0 else SumList(m, order[..|order| - 1]) + Get(m, order[|order| - 1])
  }

  lemma {:induction false} SumListFrame(m: map<string, real>, k: string, order: seq<string>)
    requires k !in order
    ensures SumList(m - {k}, order) == SumList(m, order)
  {
    if order != [] { SumListFrame(m, k, order[..|order| - 1]); }
  }

  /** The sum of the values can be taken in any order. */
  lemma {:induction false} SumInAnyOrder(m: map<string, real>, order: seq<string>)
    requires Enumerates(order, m.Keys)
    ensures SumList(m, order) == Sum(m)
  {
    if order == [] {
      assert m == map[];
    } else {
      NoDupPrefix(order);
      var before, k := order[..|order| - 1], order[|order| - 1];
      assert k in order;
      SumWithout(m, k);
      SumListFrame(m, k, before);
      SumInAnyOrder(m - {k}, before);
    }
  }

  // ---------------------------------------------------------------- usage

  datatype Tally = Tally(used: map<string, map<string, real>>, nodeTotal: map<string, real>,
                         acctCore: map<string, real>)

  function Row(m: map<string, map<string, real>>, n: string): map<string, real> { if n in m then m[n] else map[] }

  function Count(t: Tally, u: Usage): Tally {
    Tally(t.used[u.node := Add(Row(t.used, u.node), u.account, u.coreSeconds)],
          Add(t.nodeTotal, u.node, u.coreSeconds), Add(t.acctCore, AcctKey(u.account), u.coreSeconds))
  }

  function CountAll(usages: seq<Usage>): Tally {
    if usages == [] then Tally(map[], map[], map[]) else Count(CountAll(usages[..|usages| - 1]), usages[|usages| - 1])
  }

  /** Core-seconds of the usages on a node, of an account on a node, and in all. */
  function UsedOn(usages: seq<Usage>, n: string): real {
    if usages == [] then 0.0
    else
      var u := usages[|usages| - 1];
      UsedOn(usages[..|usages| - 1], n) + if u.node == n then u.coreSeconds else 0.0
  }

  function UsedBy(usages: seq<Usage>, n: string, a: string): real {
    if usages == [] then 0.0
    else
      var u := usages[|usages| - 1];
      UsedBy(usages[..|usages| - 1], n, a) + if u.node == n && u.account == a then u.coreSeconds else 0.0
  }

  function UsedInAll(usages: seq<Usage>): real {
    if usages == [] then 0.0 else UsedInAll(usages[..|usages| - 1]) + usages[|usages| - 1].coreSeconds
  }

  lemma {:induction false} CountAllAt(usages: seq<Usage>, n: string, a: string)
    ensures Get(Row(CountAll(usages).used, n), a) == UsedBy(usages, n, a)
    ensures Get(CountAll(usages).nodeTotal, n) == UsedOn(usages, n)
    ensures Sum(Row(CountAll(usages).used, n)) == UsedOn(usages, n)
    ensures Sum(CountAll(usages).acctCore) == UsedInAll(usages)
    ensures n in CountAll(usages).used <==> n in CountAll(usages).nodeTotal
  {
    if usages != [] {
      var before, u := usages[..|usages| - 1], usages[|usages| - 1];
      CountAllAt(before, n, a);
      SumAdd(Row(CountAll(before).used, u.node), u.account, u.coreSeconds);
      SumAdd(CountAll(before).acctCore, AcctKey(u.account), u.coreSeconds);
    }
  }

  lemma UsageOf(usages: seq<Usage>, n: string, a: string)
    ensures Get(Row(CountAll(usages).used, n), a) == UsedBy(usages, n, a)
    ensures Get(CountAll(usages).nodeTotal, n) == UsedOn(usages, n)
  {
    CountAllAt(usages, n, a);
  }

  // ---------------------------------------------------------------- sharing one bill

  function Share(usd: real, part: real, total: real): real
    requires total != 0.0
  {
    usd * (part / total)
  }

  lemma SharesAdd(usd: real, a: real, b: real, total: real)
    requires total != 0.0
    ensures Share(usd, a, total) + Share(usd, b, total) == Share(usd, a + b, total)
  {
    assert (a + b) / total == a / total + b / total;
  }

  /** The accounts of a node, in some order, are charged their shares. */
  function ShareOut(m: map<string, real>, key: string -> string, usd: real, row: map<string, real>, total: real,
                    order: seq<string>): map<string, real>
    requires total != 0.0
  {
    if order == [] then m
    else
      var a := order[|order| - 1];
      Add(ShareOut(m, key, usd, row, total, order[..|order| - 1]), key(a), Share(usd, Get(row, a), total))
  }

  lemma ShareOutNext(m: map<string, real>, key: string -> string, usd: real, row: map<string, real>, total: real,
                     order: seq<string>, i: nat, amt: real)
    requires total != 0.0 && i < |order| && amt == Share(usd, Get(row, order[i]), total)
    ensures ShareOut(m, key, usd, row, total, order[..i + 1]) ==
            Add(ShareOut(m, key, usd, row, total, order[..i]), key(order[i]), amt)
  {
    assert order[..i + 1][..i] == order[..i];
  }

  function Self(a: string): string { a }

  lemma {:induction false} ShareOutSum(m: map<string, real>, key: string -> string, usd: real, row: map<string, real>,
                                       total: real, order: seq<string>)
    requires total != 0.0
    ensures Sum(ShareOut(m, key, usd, row, total, order)) == Sum(m) + Share(usd, SumList(row, order), total)
  {
    if order != [] {
      var before, a := order[..|order| - 1], order[|order| - 1];
      ShareOutSum(m, key, usd, row, total, before);
      SumAdd(ShareOut(m, key, usd, row, total, before), key(a), Share(usd, Get(row, a), total));
      SharesAdd(usd, SumList(row, before), Get(row, a), total);
    }
  }

  /** The whole bill goes to the accounts: nothing is lost and nothing added. */
  lemma BillIsSharedOut(m: map<string, real>, key: string -> string, usd: real, row: map<string, real>,
                        order: seq<string>)
    requires Enumerates(order, row.Keys) && Sum(row) != 0.0
    ensures Sum(ShareOut(m, key, usd, row, Sum(row), order)) == Sum(m) + usd
  {
    ShareOutSum(m, key, usd, row, Sum(row), order);
    SumInAnyOrder(row, order);
    assert Sum(row) / Sum(row) == 1.0;
  }

  /** Each account gets its own share on the node. */
  lemma {:induction false} ShareOutSelf(m: map<string, real>, usd: real, row: map<string, real>, total: real,
                                        order: seq<string>, a: string)
    requires total != 0.0 && NoDup(order)
    ensures Get(ShareOut(m, Self, usd, row, total, order), a) ==
            Get(m, a) + if a in order then Share(usd, Get(row, a), total) else 0.0
  {
    if order != [] {
      NoDupPrefix(order);
      ShareOutSelf(m, usd, row, total, order[..|order| - 1], a);
    }
  }

  /** Each account is charged its own share; usage without an account is charged to "(unknown)" as well. */
  lemma {:induction false} ShareOutKeyed(m: map<string, real>, usd: real, row: map<string, real>, total: real,
                                         order: seq<string>, k: string)
    requires total != 0.0 && NoDup(order)
    ensures Get(ShareOut(m, AcctKey, usd, row, total, order), k) ==
            Get(m, k) + (if k != "" && k in order then Share(usd, Get(row, k), total) else 0.0)
                      + (if k == "(unknown)" && "" in order then Share(usd, Get(row, ""), total) else 0.0)
  {
    if order != [] {
      NoDupPrefix(order);
      ShareOutKeyed(m, usd, row, total, order[..|order| - 1], k);
    }
  }

  // ---------------------------------------------------------------- all bills

  function Settle(res: Allocation, t: Tally, b: Bill, order: seq<string>): Allocation {
    var total := Get(t.nodeTotal, b.node);
    if total <= 0.0 then res.(overhead := res.overhead + b.usd)
    else
      var row := Row(t.used, b.node);
      res.(accounts := ShareOut(res.accounts, AcctKey, b.usd, row, total, order),
           byNode := res.byNode[b.node := ShareOut(Row(res.byNode, b.node), Self, b.usd, row, total, order)])
  }

  /** `orders[i]` is the order in which the accounts of the i-th billed node are visited. */
  function SettleAll(t: Tally, bills: seq<Bill>, orders: seq<seq<string>>): Allocation
    requires |orders| == |bills|
  {
    if bills == [] then Allocation(map[], 0.0, map[], t.acctCore)
    else
      var m := |bills| - 1;
      Settle(SettleAll(t, bills[..m], orders[..m]), t, bills[m], orders[m])
  }

  ghost predicate OrdersFit(t: Tally, bills: seq<Bill>, orders: seq<seq<string>>) {
    |orders| == |bills| && forall i :: 0 <= i < |bills| ==> Enumerates(orders[i], Row(t.used, bills[i].node).Keys)
  }

  lemma OrdersFitPrefix(t: Tally, bills: seq<Bill>, orders: seq<seq<string>>)
    requires OrdersFit(t, bills, orders) && bills != []
    ensures var m := |bills| - 1;
            OrdersFit(t, bills[..m], orders[..m]) && Enumerates(orders[m], Row(t.used, bills[m].node).Keys)
  {
  }

  function BilledInAll(bills: seq<Bill>): real {
    if bills == [] then 0.0 else BilledInAll(bills[..|bills| - 1]) + bills[|bills| - 1].usd
  }

  function Billed(bills: seq<Bill>, n: string): real {
    if bills == [] then 0.0
    else Billed(bills[..|bills| - 1], n) + if bills[|bills| - 1].node == n then bills[|bills| - 1].usd else 0.0
  }

  /** What nodes without usage are billed. */
  function Idle(usages: seq<Usage>, bills: seq<Bill>): real {
    if bills == [] then 0.0
    else
      var b := bills[|bills| - 1];
      Idle(usages, bills[..|bills| - 1]) + if UsedOn(usages, b.node) <= 0.0 then b.usd else 0.0
  }

  /** Every dollar billed is charged to an account or counted as overhead, whatever repeats or merges. */
  lemma {:induction false} Conservation(usages: seq<Usage>, bills: seq<Bill>, orders: seq<seq<string>>)
    requires OrdersFit(CountAll(usages), bills, orders)
    ensures var res := SettleAll(CountAll(usages), bills, orders);
            Sum(res.accounts) + res.overhead == BilledInAll(bills) && res.overhead == Idle(usages, bills)
  {
    if bills != [] {
      var t, m := CountAll(usages), |bills| - 1;
      OrdersFitPrefix(t, bills, orders);
      Conservation(usages, bills[..m], orders[..m]);
      var res, b := SettleAll(t, bills[..m], orders[..m]), bills[m];
      CountAllAt(usages, b.node, "");
      if UsedOn(usages, b.node) > 0.0 { BillIsSharedOut(res.accounts, AcctKey, b.usd, Row(t.used, b.node), orders[m]); }
    }
  }

  /** The shares on a node add up to what the node was billed. */
  lemma {:induction false} NodeConservation(usages: seq<Usage>, bills: seq<Bill>, orders: seq<seq<string>>, n: string)
    requires OrdersFit(CountAll(usages), bills, orders)
    ensures Sum(Row(SettleAll(CountAll(usages), bills, orders).byNode, n)) ==
            if UsedOn(usages, n) > 0.0 then Billed(bills, n) else 0.0
  {
    if bills != [] {
      var t, m := CountAll(usages), |bills| - 1;
      OrdersFitPrefix(t, bills, orders);
      NodeConservation(usages, bills[..m], orders[..m], n);
      var res, b := SettleAll(t, bills[..m], orders[..m]), bills[m];
      CountAllAt(usages, b.node, "");
      if UsedOn(usages, b.node) > 0.0 {
        BillIsSharedOut(Row(res.byNode, b.node), Self, b.usd, Row(t.used, b.node), orders[m]);
      }
    }
  }

  lemma BillsAdd(x: real, y: real, part: real, total: real)
    requires total != 0.0
    ensures Share(x, part, total) + Share(y, part, total) == Share(x + y, part, total)
  {
  }

  lemma ShareOfNothing(x: real, total: real)
    requires total != 0.0
    ensures Share(x, 0.0, total) == 0.0
  {
  }

  lemma OneMoreBill(m: map<string, real>, prior: real, usd: real, row: map<string, real>, total: real,
                    order: seq<string>,
                    a: string)
    requires total != 0.0 && Enumerates(order, row.Keys) && Get(m, a) == Share(prior, Get(row, a), total)
    ensures Get(ShareOut(m, Self, usd, row, total, order), a) == Share(prior + usd, Get(row, a), total)
  {
    ShareOutSelf(m, usd, row, total, order, a);
    BillsAdd(prior, usd, Get(row, a), total);
    ShareOfNothing(usd, total);
  }

  /** On each node an account gets the node's bills times its part of the node's core-seconds. */
  lemma {:induction false} ShareIsExact(usages: seq<Usage>, bills: seq<Bill>, orders: seq<seq<string>>, n: string,
                                        a: string)
    requires OrdersFit(CountAll(usages), bills, orders) && UsedOn(usages, n) > 0.0
    ensures Get(Row(SettleAll(CountAll(usages), bills, orders).byNode, n), a) ==
            Share(Billed(bills, n), UsedBy(usages, n, a), UsedOn(usages, n))
  {
    UsageOf(usages, n, a);
    var t, total := CountAll(usages), UsedOn(usages, n);
    if bills == [] {
      ShareOfNoBill(UsedBy(usages, n, a), total);
    } else {
      var m := |bills| - 1;
      OrdersFitPrefix(t, bills, orders);
      ShareIsExact(usages, bills[..m], orders[..m], n, a);
      var res, b := SettleAll(t, bills[..m], orders[..m]), bills[m];
      SettleOther(res, t, b, orders[m], n);
      if b.node == n {
        OneMoreBill(Row(res.byNode, n), Billed(bills[..m], n), b.usd, Row(t.used, n), total, orders[m], a);
      }
    }
  }

  lemma SettleOther(res: Allocation, t: Tally, b: Bill, order: seq<string>, n: string)
    ensures Row(Settle(res, t, b, order).byNode, n) ==
            if b.node == n && Get(t.nodeTotal, n) > 0.0
            then ShareOut(Row(res.byNode, n), Self, b.usd, Row(t.used, n), Get(t.nodeTotal, n), order)
            else Row(res.byNode, n)
  {
  }

  lemma ShareOfNoBill(part: real, total: real)
    requires total != 0.0
    ensures Share(0.0, part, total) == 0.0
  {
  }

  /** An account's part of one bill; "(unknown)" also gets the part of usage without an account. */
  function PartOf(usages: seq<Usage>, b: Bill, k: string): real {
    var total := UsedOn(usages, b.node);
    if total <= 0.0 then 0.0
    else
      (if k != "" then Share(b.usd, UsedBy(usages, b.node, k), total) else 0.0)
      + (if k == "(unknown)" then Share(b.usd, UsedBy(usages, b.node, ""), total) else 0.0)
  }

  function Charge(usages: seq<Usage>, bills: seq<Bill>, k: string): real {
    if bills == [] then 0.0 else Charge(usages, bills[..|bills| - 1], k) + PartOf(usages, bills[|bills| - 1], k)
  }

  /** Each account is charged its parts of all bills. */
  lemma {:induction false} ChargeIsExact(usages: seq<Usage>, bills: seq<Bill>, orders: seq<seq<string>>, k: string)
    requires OrdersFit(CountAll(usages), bills, orders)
    ensures Get(SettleAll(CountAll(usages), bills, orders).accounts, k) == Charge(usages, bills, k)
  {
    if bills != [] {
      var t, m := CountAll(usages), |bills| - 1;
      OrdersFitPrefix(t, bills, orders);
      ChargeIsExact(usages, bills[..m], orders[..m], k);
      var res, b := SettleAll(t, bills[..m], orders[..m]), bills[m];
      CountAllAt(usages, b.node, k);
      CountAllAt(usages, b.node, "");
      if UsedOn(usages, b.node) > 0.0 {
        ShareOutKeyed(res.accounts, b.usd, Row(t.used, b.node), UsedOn(usages, b.node), orders[m], k);
        ShareOfNothing(b.usd, UsedOn(usages, b.node));
      }
    }
  }

  // ---------------------------------------------------------------- the loops

  method CountUsages(usages: seq<Usage>) returns (t: Tally)
    ensures t == CountAll(usages)
  {
    var used: map<string, map<string, real>> := map[];
    var nodeTotal: map<string, real>, acctCore: map<string, real> := map[], map[];
    for i := 0 to |usages|
      invariant Tally(used, nodeTotal, acctCore) == CountAll(usages[..i])
    {
      assert usages[..i + 1][..i] == usages[..i];
      var u := usages[i];
      used := used[u.node := Add(Row(used, u.node), u.account, u.coreSeconds)];
      nodeTotal := Add(nodeTotal, u.node, u.coreSeconds);
      acctCore := Add(acctCore, AcctKey(u.account), u.coreSeconds);
    }
    assert usages[..|usages|] == usages;
    t := Tally(used, nodeTotal, acctCore);
  }

  method ShareBill(accounts: map<string, real>, onNode: map<string, real>, usd: real, row: map<string, real>,
                   total: real,
                   order: seq<string>) returns (charged: map<string, real>, shown: map<string, real>)
    requires total != 0.0
    ensures charged == ShareOut(accounts, AcctKey, usd, row, total, order)
    ensures shown == ShareOut(onNode, Self, usd, row, total, order)
  {
    charged, shown := accounts, onNode;
    for i := 0 to |order|
      invariant charged == ShareOut(accounts, AcctKey, usd, row, total, order[..i])
      invariant shown == ShareOut(onNode, Self, usd, row, total, order[..i])
    {
      var amt := Share(usd, Get(row, order[i]), total);
      ShareOutNext(accounts, AcctKey, usd, row, total, order, i, amt);
      ShareOutNext(onNode, Self, usd, row, total, order, i, amt);
      charged := Add(charged, AcctKey(order[i]), amt);
      shown := Add(shown, order[i], amt);
    }
    assert order[..|order|] == order;
  }

  method SettleBill(res: Allocation, t: Tally, b: Bill) returns (after: Allocation, order: seq<string>)
    ensures Enumerates(order, Row(t.used, b.node).Keys) && after == Settle(res, t, b, order)
  {
    var total := Get(t.nodeTotal, b.node);
    var row := Row(t.used, b.node);
    order := Enumerate(row.Keys);
    if total <= 0.0 {
      after := res.(overhead := res.overhead + b.usd);
    } else {
      var accounts, onNode := ShareBill(res.accounts, Row(res.byNode, b.node), b.usd, row, total, order);
      after := res.(accounts := accounts, byNode := res.byNode[b.node := onNode]);
    }
  }

  method SettleBills(t: Tally, bills: seq<Bill>) returns (res: Allocation, ghost orders: seq<seq<string>>)
    ensures OrdersFit(t, bills, orders) && res == SettleAll(t, bills, orders)
  {
    res, orders := Allocation(map[], 0.0, map[], t.acctCore), [];
    for i := 0 to |bills|
      invariant OrdersFit(t, bills[..i], orders) && res == SettleAll(t, bills[..i], orders)
    {
      var order;
      res, order := SettleBill(res, t, bills[i]);
      SettleNext(t, bills, orders, i, order);
      orders := orders + [order];
    }
    assert bills[..|bills|] == bills;
  }

  /** `Allocate`. */
  method Allocate(usages: seq<Usage>, bills: seq<Bill>) returns (res: Allocation, ghost orders: seq<seq<string>>)
    ensures OrdersFit(CountAll(usages), bills, orders) && res == SettleAll(CountAll(usages), bills, orders)
    ensures Sum(res.accounts) + res.overhead == BilledInAll(bills) && res.overhead == Idle(usages, bills)
    ensures Sum(res.coreSeconds) == UsedInAll(usages)
  {
    var t := CountUsages(usages);
    res, orders := SettleBills(t, bills);
    Conservation(usages, bills, orders);
    SettleKeepsCore(t, bills, orders);
    CountAllAt(usages, "", "");
  }

  lemma SettleNext(t: Tally, bills: seq<Bill>, orders: seq<seq<string>>, i: nat, order: seq<string>)
    requires i < |bills| && OrdersFit(t, bills[..i], orders) && Enumerates(order, Row(t.used, bills[i].node).Keys)
    ensures OrdersFit(t, bills[..i + 1], orders + [order])
    ensures SettleAll(t, bills[..i + 1], orders + [order]) ==
            Settle(SettleAll(t, bills[..i], orders), t, bills[i], order)
  {
    assert bills[..i + 1][..i] == bills[..i] && (orders + [order])[..i] == orders;
    OrdersFitMore(t, bills, orders + [order], i);
  }

  lemma OrdersFitMore(t: Tally, bills: seq<Bill>, orders: seq<seq<string>>, i: nat)
    requires i < |bills| && |orders| == i + 1 && OrdersFit(t, bills[..i], orders[..i])
    requires Enumerates(orders[i], Row(t.used, bills[i].node).Keys)
    ensures OrdersFit(t, bills[..i + 1], orders)
  {
    forall k | 0 <= k < i + 1 ensures Enumerates(orders[k], Row(t.used, bills[..i + 1][k].node).Keys) {
      if k < i { assert orders[..i][k] == orders[k] && bills[..i][k] == bills[k]; }
    }
  }

  lemma {:induction false} SettleKeepsCore(t: Tally, bills: seq<Bill>, orders: seq<seq<string>>)
    requires |orders| == |bills|
    ensures SettleAll(t, bills, orders).coreSeconds == t.acctCore
  {
    if bills != [] { SettleKeepsCore(t, bills[..|bills| - 1], orders[..|bills| - 1]); }
  }
}
