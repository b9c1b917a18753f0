/**
 Turning end-of-job accounting records into usages: the text of a record is taken apart, and a multi-node
 job's core-seconds are spread evenly. Reading a float is a parameter: None is text that is no number.
 */
module CostRecords {
  import opened Decimal
  import opened Strings
  import opened Cost

  // ---------------------------------------------------------------- the words of a message

  function WordLength(s: string): (n: nat)
    ensures n <= |s| && (n == 0 <==> s == "" || IsSpace(s[0]))
  {
    if s == "" || IsSpace(s[0]) then 0 else 1 + WordLength(s[1..])
  }

  /** `strings.Fields`. */
  function Words(s: string): seq<string>
    decreases |s|
  {
    if s == "" then []
    else if IsSpace(s[0]) then Words(s[1..])
    else [s[..WordLength(s)]] + Words(s[WordLength(s)..])
  }

  predicate IsWord(w: string) { w != "" && forall i :: 0 <= i < |w| ==> !IsSpace(w[i]) }

  lemma {:induction false} WordLengthOf(w: string, rest: string)
    requires (forall i :: 0 <= i < |w| ==> !IsSpace(w[i])) && (rest == "" || IsSpace(rest[0]))
    ensures WordLength(w + rest) == |w|
  {
    if w == "" {
      assert w + rest == rest;
    } else {
      assert (w + rest)[1..] == w[1..] + rest;
      WordLengthOf(w[1..], rest);
    }
  }

  lemma FirstWord(w: string, rest: string)
    requires IsWord(w) && (rest == "" || IsSpace(rest[0]))
    ensures Words(w + rest) == [w] + Words(rest)
  {
    WordLengthOf(w, rest);
    assert (w + rest)[0] == w[0] && (w + rest)[..|w|] == w && (w + rest)[|w|..] == rest;
  }

  /** Words joined with single spaces are found again. */
  lemma {:induction false} WordsOfJoin(words: seq<string>)
    requires forall i :: 0 <= i < |words| ==> IsWord(words[i])
    ensures Words(Join(words, " ")) == words
  {
    if |words| == 1 {
      FirstWord(words[0], "");
      assert words[0] + "" == words[0] && words == [words[0]];
    } else if |words| > 1 {
      var tail := Join(words[1..], " ");
      WordsOfJoin(words[1..]);
      FirstWord(words[0], " " + tail);
      assert (" " + tail)[1..] == tail;
      assert words[0] + " " + tail == words[0] + (" " + tail);
    }
  }

  // ---------------------------------------------------------------- keys and values

  /** `parseKeyValues`: a later value of a key replaces an earlier one. */
  function KeyValues(words: seq<string>): map<string, string> {
    if words == [] then map[]
    else
      var m, w := KeyValues(words[..|words| - 1]), words[|words| - 1];
      var eq := IndexOf(w, '=');
      if eq > 0 then m[w[..eq] := w[eq + 1..]] else m
  }

  method ParseKeyValues(msg: string) returns (m: map<string, string>)
    ensures m == KeyValues(Words(msg))
  {
    m := map[];
    var words := Words(msg);
    for i := 0 to |words|
      invariant m == KeyValues(words[..i])
    {
      assert words[..i + 1][..i] == words[..i];
      var eq := IndexOf(words[i], '=');
      if eq > 0 { m := m[words[i][..eq] := words[i][eq + 1..]]; }
    }
    assert words[..|words|] == words;
  }

  function Lookup(m: map<string, string>, key: string): Option<string> { if key in m then Some(m[key]) else None }

  datatype Pair = Pair(key: string, value: string)

  function PairWords(pairs: seq<Pair>): (words: seq<string>)
    ensures |words| == |pairs| && forall i :: 0 <= i < |pairs| ==> words[i] == pairs[i].key + "=" + pairs[i].value
  {
    if pairs == [] then []
    else
      var p := pairs[|pairs| - 1];
      PairWords(pairs[..|pairs| - 1]) + [p.key + "=" + p.value]
  }

  /** The last value given for a key. */
  function LastValue(pairs: seq<Pair>, key: string): Option<string> {
    if pairs == [] then None
    else if pairs[|pairs| - 1].key == key then Some(pairs[|pairs| - 1].value)
    else LastValue(pairs[..|pairs| - 1], key)
  }

  lemma PairTakenApart(p: Pair)
    requires p.key != "" && '=' !in p.key
    ensures var w := p.key + "=" + p.value;
            IndexOf(w, '=') == |p.key| && w[..|p.key|] == p.key && w[|p.key| + 1..] == p.value
  {
    var w := p.key + "=" + p.value;
    assert w[|p.key|] == '=' && forall i :: 0 <= i < |p.key| ==> w[i] == p.key[i];
  }

  lemma {:induction false} ValuesOfPairs(pairs: seq<Pair>, key: string)
    requires forall i :: 0 <= i < |pairs| ==> pairs[i].key != "" && '=' !in pairs[i].key
    ensures Lookup(KeyValues(PairWords(pairs)), key) == LastValue(pairs, key)
  {
    if pairs != [] {
      var before, p := pairs[..|pairs| - 1], pairs[|pairs| - 1];
      ValuesOfPairs(before, key);
      PairTakenApart(p);
      assert PairWords(pairs)[..|pairs| - 1] == PairWords(before);
    }
  }

  // ---------------------------------------------------------------- records

  /** A numeric field of a record. */
  datatype Field = Absent | Unreadable | Value(v: real)

  datatype Record = Record(ended: bool, start: Field, end: Field, usedNcpus: Field, askedNcpus: Field, account: string,
                           execHost: string)

  function FieldOf(text: Option<string>, number: string -> Option<real>): Field {
    match text
    case None => Absent
    case Some(t) => match number(t) case None => Unreadable case Some(v) => Value(v)
  }

  function TextOr(text: Option<string>, otherwise: string): string {
    match text case Some(t) => t case None => otherwise
  }

  const NO_RECORD := Record(false, Absent, Absent, Absent, Absent, "", "")

  /** The record with these keys and values. */
  function RecordWith(m: map<string, string>, number: string -> Option<real>): Record {
    Record(true, FieldOf(Lookup(m, "start"), number), FieldOf(Lookup(m, "end"), number),
           FieldOf(Lookup(m, "resources_used.ncpus"), number), FieldOf(Lookup(m, "Resource_List.ncpus"), number),
           TextOr(Lookup(m, "account"), ""), TextOr(Lookup(m, "exec_host"), ""))
  }

  /** One line of the accounting file; a line that is no E record counts for nothing. */
  function RecordOf(line: string, number: string -> Option<real>): Record {
    var parts := Split(line, ';');
    if |parts| < 4 || parts[1] != "E" then NO_RECORD
    else RecordWith(KeyValues(Words(parts[3])), number)
  }

  /** The line of an E record, as the accounting log writes it. */
  function EndLine(stamp: string, id: string, pairs: seq<Pair>): string {
    stamp + ";" + ("E" + ";" + (id + ";" + Join(PairWords(pairs), " ")))
  }

  ghost predicate CleanPairs(pairs: seq<Pair>) {
    forall i :: 0 <= i < |pairs| ==>
      IsWord(pairs[i].key + "=" + pairs[i].value) && pairs[i].key != "" && '=' !in pairs[i].key
  }

  lemma EndLineParts(stamp: string, id: string, message: string)
    requires ';' !in stamp && ';' !in id && ';' !in message
    ensures Split(stamp + ";" + ("E" + ";" + (id + ";" + message)), ';') == [stamp, "E", id, message]
  {
    SplitAtSep(stamp, ';', "E" + ";" + (id + ";" + message));
    SplitAtSep("E", ';', id + ";" + message);
    SplitAtSep(id, ';', message);
    SplitOne(message, ';');
  }

  lemma EndLineIsRead(stamp: string, id: string, pairs: seq<Pair>, number: string -> Option<real>)
    requires CleanPairs(pairs) && ';' !in stamp && ';' !in id && ';' !in Join(PairWords(pairs), " ")
    ensures RecordOf(EndLine(stamp, id, pairs), number) == RecordWith(KeyValues(PairWords(pairs)), number)
  {
    var words := PairWords(pairs);
    EndLineParts(stamp, id, Join(words, " "));
    WordsOfJoin(words);
  }

  /** Every field of a written E record is read as the last value written for its key. */
  lemma EndRecordIsRead(stamp: string, id: string, pairs: seq<Pair>, number: string -> Option<real>)
    requires CleanPairs(pairs) && ';' !in stamp && ';' !in id && ';' !in Join(PairWords(pairs), " ")
    ensures var r := RecordOf(EndLine(stamp, id, pairs), number);
            && r.ended && r.start == FieldOf(LastValue(pairs, "start"), number)
            && r.end == FieldOf(LastValue(pairs, "end"), number)
            && r.usedNcpus == FieldOf(LastValue(pairs, "resources_used.ncpus"), number)
            && r.askedNcpus == FieldOf(LastValue(pairs, "Resource_List.ncpus"), number)
            && r.account == TextOr(LastValue(pairs, "account"), "")
            && r.execHost == TextOr(LastValue(pairs, "exec_host"), "")
  {
    EndLineIsRead(stamp, id, pairs, number);
    ValuesOfPairs(pairs, "start");
    ValuesOfPairs(pairs, "end");
    ValuesOfPairs(pairs, "resources_used.ncpus");
    ValuesOfPairs(pairs, "Resource_List.ncpus");
    ValuesOfPairs(pairs, "account");
    ValuesOfPairs(pairs, "exec_host");
  }

  // ---------------------------------------------------------------- exactly when a record is read as written

  /** A value of one word that does not end the message. */
  predicate PlainValue(v: string) { ';' !in v && forall i :: 0 <= i < |v| ==> !IsSpace(v[i]) }

  /** Keys as the log writes them: plain, not empty, without '=', and each only once. */
  ghost predicate Keyed(pairs: seq<Pair>) {
    && (forall i :: 0 <= i < |pairs| ==> pairs[i].key != "" && '=' !in pairs[i].key && PlainValue(pairs[i].key))
    && forall i, j :: 0 <= i < j < |pairs| ==> pairs[i].key != pairs[j].key
  }

  /** The value a line has for a key. */
  function FieldText(line: string, key: string): Option<string> {
    var parts := Split(line, ';');
    if |parts| < 4 then None else Lookup(KeyValues(Words(parts[3])), key)
  }

  lemma {:induction false} WordHasNoSpace(s: string)
    ensures forall i :: 0 <= i < WordLength(s) ==> !IsSpace(s[i])
  {
    if s != "" && !IsSpace(s[0]) {
      WordHasNoSpace(s[1..]);
      forall i | 0 < i < WordLength(s) ensures !IsSpace(s[i]) { assert s[i] == s[1..][i - 1]; }
    }
  }

  lemma {:induction false} WordsArePlain(s: string)
    requires ';' !in s
    ensures forall i :: 0 <= i < |Words(s)| ==> PlainValue(Words(s)[i])
    decreases |s|
  {
    if s != "" {
      if IsSpace(s[0]) {
        WordsArePlain(s[1..]);
      } else {
        WordHasNoSpace(s);
        WordsArePlain(s[WordLength(s)..]);
      }
    }
  }

  lemma {:induction false} ValuesArePlain(words: seq<string>, key: string)
    requires forall i :: 0 <= i < |words| ==> PlainValue(words[i])
    ensures key in KeyValues(words) ==> PlainValue(KeyValues(words)[key])
  {
    if words != [] { ValuesArePlain(words[..|words| - 1], key); }
  }

  /** Whatever the line, the values read from it are plain. */
  lemma ReadValuesArePlain(line: string, key: string)
    ensures FieldText(line, key).Some? ==> PlainValue(FieldText(line, key).value)
  {
    var parts := Split(line, ';');
    if |parts| >= 4 {
      PiecesHaveNoSep(line, ';');
      WordsArePlain(parts[3]);
      ValuesArePlain(Words(parts[3]), key);
    }
  }

  lemma {:induction false} JoinedHasNo(words: seq<string>, c: char)
    requires c != ' ' && forall i :: 0 <= i < |words| ==> c !in words[i]
    ensures c !in Join(words, " ")
  {
    if |words| > 1 { JoinedHasNo(words[1..], c); }
  }

  lemma {:induction false} LastOfDistinct(pairs: seq<Pair>, i: nat)
    requires Keyed(pairs) && i < |pairs|
    ensures LastValue(pairs, pairs[i].key) == Some(pairs[i].value)
  {
    if i < |pairs| - 1 { LastOfDistinct(pairs[..|pairs| - 1], i); }
  }

  /** Plain values are read as they were written. */
  lemma PlainPairsAreRead(stamp: string, id: string, pairs: seq<Pair>, key: string)
    requires Keyed(pairs) && ';' !in stamp && ';' !in id
    requires forall i :: 0 <= i < |pairs| ==> PlainValue(pairs[i].value)
    ensures CleanPairs(pairs) && ';' !in Join(PairWords(pairs), " ")
    ensures FieldText(EndLine(stamp, id, pairs), key) == LastValue(pairs, key)
  {
    var words := PairWords(pairs);
    forall i | 0 <= i < |pairs| ensures IsWord(words[i]) && ';' !in words[i] { WordOfPlain(pairs[i]); }
    JoinedHasNo(words, ';');
    EndLineParts(stamp, id, Join(words, " "));
    WordsOfJoin(words);
    ValuesOfPairs(pairs, key);
  }

  lemma WordOfPlain(p: Pair)
    requires PlainValue(p.key) && PlainValue(p.value)
    ensures IsWord(p.key + "=" + p.value) && ';' !in p.key + "=" + p.value
  {
  }

  /** All fields of an E record are read as they were written if and only if all values are plain. */
  lemma RecordReadIffPlain(stamp: string, id: string, pairs: seq<Pair>)
    requires Keyed(pairs) && ';' !in stamp && ';' !in id
    ensures (forall i :: 0 <= i < |pairs| ==>
               FieldText(EndLine(stamp, id, pairs), pairs[i].key) == Some(pairs[i].value))
            <==> forall i :: 0 <= i < |pairs| ==> PlainValue(pairs[i].value)
  {
    var line := EndLine(stamp, id, pairs);
    if forall i :: 0 <= i < |pairs| ==> FieldText(line, pairs[i].key) == Some(pairs[i].value) {
      forall i | 0 <= i < |pairs| ensures PlainValue(pairs[i].value) { ReadValuesArePlain(line, pairs[i].key); }
    }
    if forall i :: 0 <= i < |pairs| ==> PlainValue(pairs[i].value) {
      forall i | 0 <= i < |pairs| ensures FieldText(line, pairs[i].key) == Some(pairs[i].value) {
        PlainPairsAreRead(stamp, id, pairs, pairs[i].key);
        LastOfDistinct(pairs, i);
      }
    }
  }

  lemma SpacedWordIsTwo(a: string, b: string, words: seq<string>)
    ensures Join([a + " " + b] + words, " ") == Join([a] + ([b] + words), " ")
  {
    var one, two := [a + " " + b] + words, [b] + words;
    assert one[1..] == words && two[1..] == words && ([a] + two)[1..] == two;
    if words != [] { assert (a + " " + b) + " " + Join(words, " ") == a + " " + (b + " " + Join(words, " ")); }
  }

  lemma FirstPairWord(p: Pair, rest: seq<Pair>)
    ensures PairWords([p] + rest) == [p.key + "=" + p.value] + PairWords(rest)
  {
    var words := PairWords([p] + rest);
    forall i | 0 <= i < |rest| ensures words[i + 1] == PairWords(rest)[i] { assert ([p] + rest)[i + 1] == rest[i]; }
  }

  /** `p` with the key and value of `q` in its value. */
  function Hiding(p: Pair, q: Pair): Pair { Pair(p.key, p.value + " " + (q.key + "=" + q.value)) }

  lemma Regrouped(a: string, b: string, w: string)
    ensures a + "=" + (b + " " + w) == (a + "=" + b) + " " + w
  {
  }

  lemma SameMessage(p: Pair, q: Pair, rest: seq<Pair>)
    ensures Join(PairWords([Hiding(p, q)] + rest), " ") == Join(PairWords([p] + ([q] + rest)), " ")
  {
    var v, w := p.key + "=" + p.value, q.key + "=" + q.value;
    FirstPairWord(Hiding(p, q), rest);
    Regrouped(p.key, p.value, w);
    FirstPairWord(q, rest);
    FirstPairWord(p, [q] + rest);
    SpacedWordIsTwo(v, w, PairWords(rest));
  }

  /** The log writes the same for a value with a key and value in it and for the two. */
  lemma SameText(stamp: string, id: string, p: Pair, q: Pair, rest: seq<Pair>)
    ensures EndLine(stamp, id, [Hiding(p, q)] + rest) == EndLine(stamp, id, [p] + ([q] + rest))
  {
    SameMessage(p, q, rest);
  }

  predicate CleanPair(p: Pair) { IsWord(p.key + "=" + p.value) && p.key != "" && '=' !in p.key }

  lemma OneMorePair(p: Pair, rest: seq<Pair>)
    requires CleanPairs(rest) && ';' !in Join(PairWords(rest), " ")
    requires CleanPair(p) && ';' !in p.key + "=" + p.value
    ensures CleanPairs([p] + rest) && ';' !in Join(PairWords([p] + rest), " ")
  {
    FirstPairWord(p, rest);
    var w, words := p.key + "=" + p.value, PairWords(rest);
    assert ([w] + words)[1..] == words;
  }

  /** What a value hides is read as if it had been written for itself. */
  lemma HiddenIsRead(stamp: string, id: string, p: Pair, q: Pair, rest: seq<Pair>, number: string -> Option<real>)
    requires CleanPairs(rest) && LastValue(rest, "account") == None
    requires CleanPair(p) && CleanPair(q) && ';' !in p.key + "=" + p.value && ';' !in q.key + "=" + q.value
    requires p.key != "account" && q.key == "account"
    requires ';' !in stamp && ';' !in id && ';' !in Join(PairWords(rest), " ")
    ensures LastValue([Hiding(p, q)] + rest, "account") == None
    ensures RecordOf(EndLine(stamp, id, [Hiding(p, q)] + rest), number).account == q.value
  {
    SameText(stamp, id, p, q, rest);
    LastBehind([Hiding(p, q)], rest, "account");
    LastBehind([p, q], rest, "account");
    assert [p] + ([q] + rest) == [p, q] + rest;
    OneMorePair(q, rest);
    OneMorePair(p, [q] + rest);
    EndRecordIsRead(stamp, id, [p, q] + rest, number);
  }

  /** A job named "x account=y", without an account of its own, is charged to y. */
  lemma NamedLikeAnAccount(stamp: string, id: string, number: string -> Option<real>)
    requires ';' !in stamp && ';' !in id
    ensures RecordOf(EndLine(stamp, id, [Pair("jobname", "x account=y")]), number).account == "y"
  {
    var p, q := Pair("jobname", "x"), Pair("account", "y");
    assert IsWord("jobname" + "=" + "x") && IsWord("account" + "=" + "y");
    assert Hiding(p, q) == Pair("jobname", "x account=y");
    assert PairWords([]) == [];
    HiddenIsRead(stamp, id, p, q, [], number);
    assert [Hiding(p, q)] + [] == [Hiding(p, q)];
  }

  lemma {:induction false} LastBehind(first: seq<Pair>, rest: seq<Pair>, key: string)
    requires LastValue(rest, key) == None
    ensures LastValue(first + rest, key) == LastValue(first, key)
  {
    if rest == [] {
      assert first + rest == first;
    } else {
      var m := |rest| - 1;
      assert (first + rest)[..|first| + m] == first + rest[..m];
      LastBehind(first, rest[..m], key);
    }
  }

  // ---------------------------------------------------------------- nodes

  function HostOf(piece: string): string {
    var t := TrimSpace(piece);
    var slash := IndexOf(t, '/');
    if slash >= 0 then t[..slash] else t
  }

  /** The hosts named by the pieces, without empty ones. */
  function HostsOf(pieces: seq<string>): seq<string> {
    if pieces == [] then []
    else
      var h := HostOf(pieces[|pieces| - 1]);
      HostsOf(pieces[..|pieces| - 1]) + if h != "" then [h] else []
  }

  function NodesOf(execHost: string): (nodes: seq<string>)
    ensures nodes != []
  {
    if execHost == "" || HostsOf(Split(execHost, '+')) == [] then [""] else HostsOf(Split(execHost, '+'))
  }

  /** `nodesFromExecHost`: never empty, so the split below never divides by zero. */
  method NodesFromExecHost(execHost: string) returns (nodes: seq<string>)
    ensures nodes != [] && nodes == NodesOf(execHost)
  {
    if execHost == "" { return [""]; }
    nodes := [];
    var pieces := Split(execHost, '+');
    for i := 0 to |pieces|
      invariant nodes == HostsOf(pieces[..i])
    {
      assert pieces[..i + 1][..i] == pieces[..i];
      var h := HostOf(pieces[i]);
      if h != "" { nodes := nodes + [h]; }
    }
    assert pieces[..|pieces|] == pieces;
    if nodes == [] { nodes := [""]; }
  }

  // ---------------------------------------------------------------- usages

  /** The record counts: a job that ended, with readable times in order. */
  predicate Counts(r: Record) { r.ended && r.start.Value? && r.end.Value? && r.end.v > r.start.v }

  /** A used count, even one that cannot be read, hides the one asked for. */
  function Ncpus(r: Record): (n: real)
    ensures n > 0.0
  {
    var f := if !r.usedNcpus.Absent? then r.usedNcpus else r.askedNcpus;
    if f.Value? && f.v > 0.0 then f.v else 1.0
  }

  function CoreSeconds(r: Record): real { if Counts(r) then Ncpus(r) * (r.end.v - r.start.v) else 0.0 }

  function Part(total: real, n: nat): real
    requires n > 0
  {
    total / n as real
  }

  /** One usage of `per` on each node in turn. */
  function Spread(account: string, nodes: seq<string>, per: real): seq<Usage> {
    if nodes == [] then []
    else Spread(account, nodes[..|nodes| - 1], per) + [Usage(account, nodes[|nodes| - 1], per)]
  }

  function UsagesOfRecord(r: Record): seq<Usage> {
    if Counts(r) then Spread(r.account, NodesOf(r.execHost), Part(CoreSeconds(r), |NodesOf(r.execHost)|)) else []
  }

  function UsagesOf(lines: seq<string>, number: string -> Option<real>): seq<Usage> {
    if lines == [] then []
    else UsagesOf(lines[..|lines| - 1], number) + UsagesOfRecord(RecordOf(lines[|lines| - 1], number))
  }

  method AddRecord(out: seq<Usage>, r: Record) returns (all: seq<Usage>)
    requires Counts(r)
    ensures all == out + UsagesOfRecord(r)
  {
    var nodes := NodesFromExecHost(r.execHost);
    var per := Part(CoreSeconds(r), |nodes|);
    all := out;
    for i := 0 to |nodes|
      invariant all == out + Spread(r.account, nodes[..i], per)
    {
      assert nodes[..i + 1][..i] == nodes[..i];
      all := all + [Usage(r.account, nodes[i], per)];
    }
    assert nodes[..|nodes|] == nodes;
  }

  method ReadRecord(line: string, number: string -> Option<real>) returns (r: Record)
    ensures r == RecordOf(line, number)
  {
    var parts := Split(line, ';');
    if |parts| < 4 || parts[1] != "E" { return NO_RECORD; }
    var m := ParseKeyValues(parts[3]);
    r := RecordWith(m, number);
  }

  /** `ParseAccounting` over the lines of the file. */
  method ParseAccounting(lines: seq<string>, number: string -> Option<real>) returns (out: seq<Usage>)
    ensures out == UsagesOf(lines, number)
  {
    out := [];
    for i := 0 to |lines|
      invariant out == UsagesOf(lines[..i], number)
    {
      assert lines[..i + 1][..i] == lines[..i];
      var r := ReadRecord(lines[i], number);
      if Counts(r) { out := AddRecord(out, r); }
    }
    assert lines[..|lines|] == lines;
  }

  // ---------------------------------------------------------------- what the usages add up to

  function Times(n: string, nodes: seq<string>): nat {
    if nodes == [] then 0 else Times(n, nodes[..|nodes| - 1]) + if nodes[|nodes| - 1] == n then 1 else 0
  }

  lemma {:induction false} UsedInMore(a: seq<Usage>, b: seq<Usage>)
    ensures UsedInAll(a + b) == UsedInAll(a) + UsedInAll(b)
  {
    if b == [] {
      assert a + b == a;
    } else {
      var m := |b| - 1;
      assert (a + b)[..|a| + m] == a + b[..m];
      UsedInMore(a, b[..m]);
    }
  }

  function Repeat(per: real, n: nat): real { if n == 0 then 0.0 else Repeat(per, n - 1) + per }

  lemma {:induction false} RepeatIsProduct(per: real, n: nat)
    ensures Repeat(per, n) == per * n as real
  {
    if n > 0 {
      RepeatIsProduct(per, n - 1);
      assert per * (n - 1) as real + per == per * n as real;
    }
  }

  lemma EvenSplit(total: real, n: nat)
    requires n > 0
    ensures Repeat(Part(total, n), n) == total
  {
    RepeatIsProduct(Part(total, n), n);
  }

  lemma {:induction false} SpreadAddsUp(account: string, nodes: seq<string>, per: real, n: string)
    ensures UsedInAll(Spread(account, nodes, per)) == Repeat(per, |nodes|)
    ensures UsedOn(Spread(account, nodes, per), n) == Repeat(per, Times(n, nodes))
  {
    if nodes != [] {
      var m := |nodes| - 1;
      SpreadAddsUp(account, nodes[..m], per, n);
      var all := Spread(account, nodes, per);
      assert all[..|all| - 1] == Spread(account, nodes[..m], per);
    }
  }

  /** The usages of a record add up to its core-seconds, and each node has an equal part for each time it is named. */
  lemma RecordAddsUp(r: Record, n: string)
    ensures UsedInAll(UsagesOfRecord(r)) == CoreSeconds(r)
    ensures Counts(r) ==>
              var nodes := NodesOf(r.execHost);
              UsedOn(UsagesOfRecord(r), n) == Repeat(Part(CoreSeconds(r), |nodes|), Times(n, nodes))
  {
    if Counts(r) {
      var nodes := NodesOf(r.execHost);
      SpreadAddsUp(r.account, nodes, Part(CoreSeconds(r), |nodes|), n);
      EvenSplit(CoreSeconds(r), |nodes|);
    }
  }

  function CoreSecondsOfAll(lines: seq<string>, number: string -> Option<real>): real {
    if lines == [] then 0.0
    else CoreSecondsOfAll(lines[..|lines| - 1], number) + CoreSeconds(RecordOf(lines[|lines| - 1], number))
  }

  /** No core-second of a record that counts is lost or doubled. */
  lemma {:induction false} UsagesKeepTotal(lines: seq<string>, number: string -> Option<real>)
    ensures UsedInAll(UsagesOf(lines, number)) == CoreSecondsOfAll(lines, number)
  {
    if lines != [] {
      var before, r := lines[..|lines| - 1], RecordOf(lines[|lines| - 1], number);
      UsagesKeepTotal(before, number);
      RecordAddsUp(r, "");
      UsedInMore(UsagesOf(before, number), UsagesOfRecord(r));
    }
  }
}
