/** The state text and job list a node is reported with, and what the scheduler makes of them. */
module NodeState {
  import opened Strings
  import opened Placement

  datatype Flag = Down | Offline | Busy | JobExclusive | Reserve | Drain | Excl | Unknown

  /** The order in which the flags are written. */
  const FLAGS: seq<Flag> := [Down, Offline, Busy, JobExclusive, Reserve, Drain, Excl, Unknown]

  function NameOf(f: Flag): string {
    match f
    case Down => "down" case Offline => "offline" case Busy => "busy" case JobExclusive => "job-exclusive"
    case Reserve => "reserve" case Drain => "drain" case Excl => "excl" case Unknown => "state-unknown"
  }

  /** The names of the flags that are set, from the i-th on. */
  function NamesFrom(flags: set<Flag>, i: nat): seq<string>
    requires i <= 8
    decreases 8 - i
  {
    if i == 8 then []
    else if FLAGS[i] in flags then [NameOf(FLAGS[i])] + NamesFrom(flags, i + 1)
    else NamesFrom(flags, i + 1)
  }

  /** `StateName`. */
  function StateName(flags: set<Flag>): string {
    if NamesFrom(flags, 0) == [] then "free" else Join(NamesFrom(flags, 0), ",")
  }

  method WriteStateName(flags: set<Flag>) returns (text: string)
    ensures text == StateName(flags)
  {
    text := "";
    ghost var done: seq<string> := [];
    for i := 0 to 8
      invariant NamesFrom(flags, 0) == done + NamesFrom(flags, i) && text == Join(done, ",")
                && (done == [] <==> text == "")
    {
      if FLAGS[i] in flags {
        JoinMore(done, ",", NameOf(FLAGS[i]));
        done := done + [NameOf(FLAGS[i])];
        if text != "" { text := text + ","; }
        text := text + NameOf(FLAGS[i]);
      }
    }
    assert done + NamesFrom(flags, 8) == done;
    if text == "" { text := "free"; }
  }

  lemma {:induction false} JoinMore(parts: seq<string>, sep: string, last: string)
    ensures Join(parts + [last], sep) == if parts == [] then last else Join(parts, sep) + sep + last
  {
    if |parts| > 0 {
      assert (parts + [last])[1..] == parts[1..] + [last];
      JoinMore(parts[1..], sep, last);
      if |parts| > 1 {
        var rest := Join(parts[1..], sep);
        assert parts[0] + sep + (rest + sep + last) == (parts[0] + sep + rest) + sep + last;
      } else {
        assert parts == [parts[0]];
      }
    }
  }

  // ---------------------------------------------------------------- reading the state

  predicate Blocks(f: Flag) { f == Down || f == Offline || f == Busy || f == Drain || f == Excl }

  lemma NameFacts(f: Flag)
    ensures ',' !in NameOf(f) && TrimSpace(NameOf(f)) == NameOf(f) && NameOf(f) != "free"
    ensures BlockedToken(NameOf(f)) <==> Blocks(f)
    ensures NameOf(f) == "job-exclusive" <==> f == JobExclusive
  {
    var n := NameOf(f);
    assert !IsSpace(n[0]) && !IsSpace(n[|n| - 1]);
    TrimNothing(n);
  }

  /** What the first deciding flag from the i-th on decides. */
  predicate Decides(flags: set<Flag>, i: nat)
    requires i <= 8
    decreases 8 - i
  {
    i < 8 && if FLAGS[i] !in flags then Decides(flags, i + 1)
             else !Blocks(FLAGS[i]) && (FLAGS[i] == JobExclusive || Decides(flags, i + 1))
  }

  lemma {:induction false} TokensDecide(flags: set<Flag>, i: nat)
    requires i <= 8
    ensures TokensSchedulable(NamesFrom(flags, i)) <==> Decides(flags, i)
    decreases 8 - i
  {
    if i < 8 {
      TokensDecide(flags, i + 1);
      NameFacts(FLAGS[i]);
      var names := NamesFrom(flags, i);
      if FLAGS[i] in flags { assert names[1..] == NamesFrom(flags, i + 1); }
    }
  }

  lemma {:induction false} NamesAreNames(flags: set<Flag>, i: nat)
    requires i <= 8
    ensures forall k :: 0 <= k < |NamesFrom(flags, i)| ==>
            ',' !in NamesFrom(flags, i)[k] && NamesFrom(flags, i)[k] != "free"
    decreases 8 - i
  {
    if i < 8 {
      NamesAreNames(flags, i + 1);
      NameFacts(FLAGS[i]);
    }
  }

  lemma DecidesFromJob(flags: set<Flag>)
    ensures Decides(flags, 3) <==> JobExclusive in flags
  {
    assert !Decides(flags, 7) && !Decides(flags, 6) && !Decides(flags, 5) && !Decides(flags, 4);
  }

  lemma DecidesExactly(flags: set<Flag>)
    ensures Decides(flags, 0) <==> Down !in flags && Offline !in flags && Busy !in flags && JobExclusive in flags
  {
    DecidesFromJob(flags);
    assert Decides(flags, 2) <==> Busy !in flags && JobExclusive in flags;
    assert Decides(flags, 1) <==> Offline !in flags && Busy !in flags && JobExclusive in flags;
  }

  lemma {:induction false} NoNamesNoFlags(flags: set<Flag>, i: nat)
    requires i <= 8
    ensures NamesFrom(flags, i) == [] <==> forall k :: i <= k < 8 ==> FLAGS[k] !in flags
    decreases 8 - i
  {
    if i < 8 { NoNamesNoFlags(flags, i + 1); }
  }

  lemma EveryFlagIsListed(f: Flag)
    ensures f in FLAGS
  {
    assert FLAGS[0] == Down && FLAGS[1] == Offline && FLAGS[2] == Busy && FLAGS[3] == JobExclusive;
    assert FLAGS[4] == Reserve && FLAGS[5] == Drain && FLAGS[6] == Excl && FLAGS[7] == Unknown;
  }

  /**
   The scheduler takes the reported node for schedulable if and only if no flag is set, or job-exclusive
   is set and none of down, offline and busy is: behind job-exclusive, drain and excl are not seen.
   */
  lemma SchedulableIff(flags: set<Flag>)
    ensures NodeSchedulable(StateName(flags)) <==>
            flags == {} || (JobExclusive in flags && Down !in flags && Offline !in flags && Busy !in flags)
  {
    NoNamesNoFlags(flags, 0);
    forall f | f in flags ensures f in FLAGS { EveryFlagIsListed(f); }
    var names := NamesFrom(flags, 0);
    if names == [] {
      assert flags == {};
    } else {
      NamesAreNames(flags, 0);
      SplitJoin(names, ',');
      TokensDecide(flags, 0);
      DecidesExactly(flags);
      SplitOne("free", ',');
      assert names[0] != "free";
    }
  }

  /** A draining or exclusive node is kept out if and only if it has no job-exclusive flag or a stronger one. */
  lemma DrainingSeenIff(flags: set<Flag>)
    requires Drain in flags || Excl in flags
    ensures !NodeSchedulable(StateName(flags)) <==>
            JobExclusive !in flags || Down in flags || Offline in flags || Busy in flags
  {
    SchedulableIff(flags);
  }

  // ---------------------------------------------------------------- reading the jobs

  /** The job list as the scheduler has it: joined with ", " and split at ",". */
  function JobsAsRead(ids: seq<string>): seq<string> { Split(Join(ids, ", "), ',') }

  function Spaced(ids: seq<string>): seq<string> {
    if ids == [] then [] else [" " + ids[0]] + Spaced(ids[1..])
  }

  lemma {:induction false} JoinSpaced(ids: seq<string>)
    requires ids != []
    ensures " " + Join(ids, ", ") == Join(Spaced(ids), ",")
  {
    if |ids| > 1 {
      JoinSpaced(ids[1..]);
      assert Spaced(ids)[1..] == Spaced(ids[1..]);
      calc {
        " " + Join(ids, ", ");
        " " + (ids[0] + ", " + Join(ids[1..], ", "));
        (" " + ids[0]) + "," + (" " + Join(ids[1..], ", "));
        Join(Spaced(ids), ",");
      }
    } else {
      assert ids == [ids[0]];
    }
  }

  lemma {:induction false} SpacedAt(ids: seq<string>)
    ensures |Spaced(ids)| == |ids| && forall i :: 0 <= i < |ids| ==> Spaced(ids)[i] == " " + ids[i]
  {
    if ids != [] { SpacedAt(ids[1..]); }
  }

  /**
   The list keeps its length, so an empty node is still told from a busy one, but every id after the first gains a
   space.
   */
  lemma JobsReadWithSpace(ids: seq<string>)
    requires ids != [] && forall i :: 0 <= i < |ids| ==> ',' !in ids[i]
    ensures JobsAsRead(ids) == [ids[0]] + Spaced(ids[1..])
  {
    SpacedAt(ids[1..]);
    if |ids| == 1 {
      SplitOne(ids[0], ',');
      assert Spaced(ids[1..]) == [];
    } else {
      var rest := ids[1..];
      JoinSpaced(rest);
      SplitJoin(Spaced(rest), ',');
      assert Join(ids, ", ") == ids[0] + [','] + (" " + Join(rest, ", "));
      SplitAtSep(ids[0], ',', " " + Join(rest, ", "));
    }
  }
}
