/** Sample sets of one name: `sample_t` and the SAMPLE, tick and FORGET branches of the kernel. */
module Samples {
  import opened Basics
  import W = Windows
  import opened Machines
  import opened Metrics
  import opened SampleStats

  /** A SAMPLE PDU carries at least one value. */
  type Values = vs: seq<real> | vs != [] witness [0.0]

  datatype Sample = Sample(window: pos, lastSeen: int, stats: Stats, ignore: bool)

  function FreshSample(window: pos): Sample { Sample(window, 0, EMPTY, false) }

  function SampleReset(x: Sample): Sample { x.(lastSeen := 0, stats := EMPTY) }

  /** The count is printed with `%u`, so it goes out modulo 2^32. */
  function CastSample(name: string, x: Sample): Broadcast {
    SampleCast(Stamp(x.window, x.lastSeen), name,
               Low32(x.stats.n), x.stats.min, x.stats.max, x.stats.sum, x.stats.mean, x.stats.vari)
  }

  function SampleSubmit(name: string, x: Sample, ts: u32, vs: Values): (Sample, seq<Broadcast>) {
    if x.ignore then (x, [])
    else
      var rolls := RollsOver(x.window, x.lastSeen, ts);
      var x0 := if rolls then SampleReset(x) else x;
      (x0.(lastSeen := ToI32(ts), stats := DataAll(x0.stats, vs)),
       if rolls then [CastSample(name, x)] else [])
  }

  function SampleTick(name: string, x: Sample, cutoff: int): (Sample, seq<Broadcast>) {
    if x.ignore || !Flushes(x.window, x.lastSeen, cutoff) then (x, [])
    else (SampleReset(x), [CastSample(name, x)])
  }

  /** The entry `find_sample` returns. */
  function FindSample(rules: seq<Rule<pos>>, name: string, x: Option<Sample>): Option<Sample> {
    if x.Some? then x
    else match FirstMatch(rules, name)
      case None => None
      case Some(window) => Some(FreshSample(window))
  }

  function SampleStep(rules: seq<Rule<pos>>, name: string, x: Option<Sample>, op: Op<Values>)
    : (Option<Sample>, seq<Broadcast>)
  {
    match op
    case Submit(ts, vs) =>
      (match FindSample(rules, name, x)
       case None => (None, [])
       case Some(found) => var (x', out) := SampleSubmit(name, found, ts, vs); (Some(x'), out))
    case Tick(cutoff) =>
      if x.None? then (None, [])
      else var (x', out) := SampleTick(name, x.value, cutoff); (Some(x'), out)
    case Forget(ignore) =>
      if x.None? || !ignore then (None, []) else (Some(x.value.(ignore := true)), [])
  }

  function SampleMachine(rules: seq<Rule<pos>>, name: string): Machine<Sample, Op<Values>> {
    (x, op) => SampleStep(rules, name, x, op)
  }

  function SampleRun(rules: seq<Rule<pos>>, name: string, x: Option<Sample>, ops: seq<Op<Values>>)
    : (Option<Sample>, seq<Broadcast>)
  {
    RunOf(SampleMachine(rules, name), x, ops)
  }

  // ---------------------------------------------------------------- simulation

  /** The values of a group, in arrival order. */
  function AllValues(g: seq<W.Item<Values>>): seq<real> {
    if g == [] then [] else AllValues(Front(g)) + Last(g).payload
  }

  /** The sample set that holds exactly the items `g`. */
  function SampleOf(window: pos, g: seq<W.Item<Values>>): Sample {
    Sample(window, LastTs(g), DataAll(EMPTY, AllValues(g)), false)
  }

  function SampleCasts(name: string, window: pos): seq<W.Item<Values>> -> Broadcast {
    g => CastSample(name, SampleOf(window, g))
  }

  lemma SampleSubmitOf(name: string, window: pos, g: seq<W.Item<Values>>, it: W.Item<Values>)
    requires InRange(it.ts) && TsInRange(g)
    ensures SampleSubmit(name, SampleOf(window, g), it.ts, it.payload) ==
            if g != [] && W.Label(window, g) != W.WinStart(window, it.ts)
            then (SampleOf(window, [it]), [CastSample(name, SampleOf(window, g))])
            else (SampleOf(window, g + [it]), [])
  {
    hide W.WinStart, DataAll;
    assert Front(g + [it]) == g && Last(g + [it]) == it;
    DataAllAppend(EMPTY, AllValues(g), it.payload);
    assert Front([it]) == [] && Last([it]) == it;
    assert AllValues([it]) == it.payload;
    assert DataAll(EMPTY, []) == EMPTY by { DataAllNone(EMPTY); }
  }

  lemma SampleTickOf(name: string, window: pos, g: seq<W.Item<Values>>, cutoff: int)
    requires TsInRange(g)
    ensures SampleTick(name, SampleOf(window, g), cutoff) ==
            if g != [] && W.WinEnd(window, Last(g).ts) < cutoff
            then (SampleOf(window, []), [CastSample(name, SampleOf(window, g))])
            else (SampleOf(window, g), [])
  {
    hide W.WinStart, Data;
  }

  lemma SampleStepSimulates(rules: seq<Rule<pos>>, name: string, x: Option<Sample>, window: pos, s: W.Win<Values>,
                            op: Op<Values>)
    requires Plain([op]) && TsInRange(s.pending)
    requires FindSample(rules, name, x) == Some(SampleOf(window, s.pending))
    ensures var (x', out) := SampleStep(rules, name, x, op);
            var s' := W.Step(window, s, WinOp(op));
            && TsInRange(s'.pending)
            && FindSample(rules, name, x') == Some(SampleOf(window, s'.pending))
            && Render(SampleCasts(name, window), s'.closed) == Render(SampleCasts(name, window), s.closed) + out
  {
    hide W.WinStart, Stamp, SampleSubmit, SampleTick, DataAll, AllValues;
    assert [op][0] == op;
    RenderAppend(SampleCasts(name, window), s.closed, s.pending);
    match op
    case Submit(ts, vs) => SampleSubmitOf(name, window, s.pending, W.Item(ts, vs));
    case Tick(cutoff) => SampleTickOf(name, window, s.pending, cutoff);
  }

  lemma SampleOfNone(name: string, window: pos)
    ensures SampleOf(window, []) == FreshSample(window)
    ensures Render(SampleCasts(name, window), []) == []
  {
  }

  lemma {:induction false} SampleRefines(rules: seq<Rule<pos>>, name: string, x: Option<Sample>, window: pos,
                                         ops: seq<Op<Values>>)
    requires Plain(ops)
    requires FindSample(rules, name, x) == Some(FreshSample(window))
    ensures var (x', out) := SampleRun(rules, name, x, ops);
            var s := W.Run(window, WinOps(ops));
            && TsInRange(s.pending)
            && FindSample(rules, name, x') == Some(SampleOf(window, s.pending))
            && out == Render(SampleCasts(name, window), s.closed)
  {
    hide SampleStep, W.Step, FindSample, SampleOf, Render;
    if ops == [] {
      SampleOfNone(name, window);
    } else {
      SampleRefines(rules, name, x, window, Front(ops));
      assert Front(WinOps(ops)) == WinOps(Front(ops));
      var (x1, _) := SampleRun(rules, name, x, Front(ops));
      SampleStepSimulates(rules, name, x1, window, W.Run(window, WinOps(Front(ops))), Last(ops));
    }
  }

  // ---------------------------------------------------------------- conservation and exactly-once

  lemma {:induction false} AllValuesConcat(a: seq<W.Item<Values>>, b: seq<W.Item<Values>>)
    ensures AllValues(a + b) == AllValues(a) + AllValues(b)
  {
    if b == [] {
      assert a + b == a;
    } else {
      assert Front(a + b) == a + Front(b) && Last(a + b) == Last(b);
      AllValuesConcat(a, Front(b));
      assert AllValues(a) + (AllValues(Front(b)) + Last(b).payload)
             == AllValues(a) + AllValues(Front(b)) + Last(b).payload;
    }
  }

  /** How many values were broadcast for the window starting at `start`, modulo 2^32, and their sum. */
  function BroadcastSums(casts: seq<Broadcast>, start: int): (u32, real) {
    if casts == [] then (0, 0.0)
    else
      var (n, sum) := BroadcastSums(Front(casts), start);
      if Last(casts).SampleCast? && Last(casts).ts == start
      then (Low32(n + Last(casts).n), sum + Last(casts).sum)
      else (n, sum)
  }

  /** What an entry holds for the window starting at `start`. */
  function PendingSums(x: Option<Sample>, start: int): (nat, real) {
    if x.Some? && x.value.lastSeen != 0 && Stamp(x.value.window, x.value.lastSeen) == start
    then (x.value.stats.n, x.value.stats.sum) else (0, 0.0)
  }

  lemma BroadcastSumsAppend(casts: seq<Broadcast>, b: Broadcast, start: int)
    ensures var (n, sum) := BroadcastSums(casts, start);
            BroadcastSums(casts + [b], start) ==
            if b.SampleCast? && b.ts == start then (Low32(n + b.n), sum + b.sum) else (n, sum)
  {
    assert Front(casts + [b]) == casts;
  }

  lemma PartSums(window: pos, g: seq<W.Item<Values>>, start: int)
    requires TsInRange(g)
    ensures var x, vs := SampleOf(window, g), AllValues(W.Part(window, g, start));
            if Stamp(window, x.lastSeen) == start then x.stats.n == |vs| && x.stats.sum == Sum(vs) else vs == []
  {
    hide W.WinStart, Stamp, DataAll, Data, Square;
    StampOf(window, g);
    Moments(AllValues(g));
  }

  /** The counts and sums broadcast for the groups labelled `start` are those of the values in them. */
  ghost predicate SumsAgree(name: string, window: pos, groups: seq<seq<W.Item<Values>>>, start: int) {
    var vs := AllValues(W.Labelled(window, groups, start));
    BroadcastSums(Render(SampleCasts(name, window), groups), start) == (Low32(|vs|), Sum(vs))
  }

  lemma SumsAgreeStep(name: string, window: pos, before: seq<seq<W.Item<Values>>>, last: seq<W.Item<Values>>,
                      start: int)
    requires SumsAgree(name, window, before, start) && TsInRange(last)
    ensures SumsAgree(name, window, before + [last], start)
  {
    hide W.WinStart, W.Part, Stamp, BroadcastSums, Render, AllValues, SumOf, DataAll, Low32;
    var cast := SampleCasts(name, window);
    RenderAppend(cast, before, last);
    BroadcastSumsAppend(Render(cast, before), cast(last), start);
    PartSums(window, last, start);
    var a, b := W.Labelled(window, before, start), W.Part(window, last, start);
    assert Front(before + [last]) == before;
    AllValuesConcat(a, b);
    SumOfConcat(Same, AllValues(a), AllValues(b));
    SumOfNone(Same);
    Low32Laws(|AllValues(a)|, |AllValues(b)|);
    Low32Laws(Low32(|AllValues(a)|), |AllValues(b)|);
    Low32Laws(|AllValues(a)|, 0);
  }

  lemma SumsAgreeNone(name: string, window: pos, start: int)
    ensures SumsAgree(name, window, [], start)
  {
  }

  lemma {:induction false} RenderedSums(name: string, window: pos, groups: seq<seq<W.Item<Values>>>, start: int)
    requires AllInRange(groups)
    ensures SumsAgree(name, window, groups, start)
  {
    hide SumsAgree;
    if groups == [] {
      SumsAgreeNone(name, window, start);
    } else {
      assert forall i | 0 <= i < |groups| - 1 :: Front(groups)[i] == groups[i];
      assert Last(groups) == groups[|groups| - 1];
      RenderedSums(name, window, Front(groups), start);
      SumsAgreeStep(name, window, Front(groups), Last(groups), start);
      FrontLast(groups);
    }
  }

  lemma SumOfNone(f: real -> real)
    ensures SumOf(f, []) == 0.0
  {
  }

  /**
   Conservation, in any arrival order: the counts and sums broadcast for a window, plus what the
   entry still holds for it, are the count, modulo 2^32, and the sum of the values submitted for it.
   */
  lemma SampleConservation(rules: seq<Rule<pos>>, name: string, x: Option<Sample>, window: pos, ops: seq<Op<Values>>,
                           start: int)
    requires Plain(ops)
    requires FindSample(rules, name, x) == Some(FreshSample(window))
    ensures var (x', out) := SampleRun(rules, name, x, ops);
            var (n, sum) := BroadcastSums(out, start);
            var (n', sum') := PendingSums(x', start);
            var vs := AllValues(W.InWindow(window, Submitted(ops), start));
            Low32(n + n') == Low32(|vs|) && sum + sum' == Sum(vs)
  {
    hide W.WinStart, Stamp, DataAll, Data, Square, BroadcastSums, PendingSums, SumOf, Render, AllValues, Low32, W.Part;
    SampleRefines(rules, name, x, window, ops);
    var s := W.Run(window, WinOps(ops));
    GroupsInRange(window, ops);
    W.Conservation(window, WinOps(ops), start);
    RenderedSums(name, window, s.closed, start);
    PendingPart(rules, name, SampleRun(rules, name, x, ops).0, window, s.pending, start);
    var a, b := W.Labelled(window, s.closed, start), W.Part(window, s.pending, start);
    AllValuesConcat(a, b);
    SumOfConcat(Same, AllValues(a), AllValues(b));
    Low32Laws(|AllValues(a)|, |AllValues(b)|);
  }

  lemma PendingPart(rules: seq<Rule<pos>>, name: string, x: Option<Sample>, window: pos, g: seq<W.Item<Values>>,
                    start: int)
    requires TsInRange(g) && FindSample(rules, name, x) == Some(SampleOf(window, g))
    ensures var vs := AllValues(W.Part(window, g, start)); PendingSums(x, start) == (|vs|, Sum(vs))
  {
    hide W.WinStart, Stamp, DataAll, Data, Square;
    PartSums(window, g, start);
    SumOfNone(Same);
  }

  /** The equations of `SampleConservation`, for one run and one window. */
  ghost predicate Conserves(rules: seq<Rule<pos>>, name: string, x: Option<Sample>, window: pos,
                            ops: seq<Op<Values>>, start: int) {
    var (x', out) := SampleRun(rules, name, x, ops);
    var (n, sum) := BroadcastSums(out, start);
    var (n', sum') := PendingSums(x', start);
    var vs := AllValues(W.InWindow(window, Submitted(ops), start));
    Low32(n + n') == Low32(|vs|) && sum + sum' == Sum(vs)
  }

  /** Values whose loss would not show: none, counted modulo 2^32, and none in sum. */
  predicate Unnoticed(vs: seq<real>) {
    Low32(|vs|) == 0 && Sum(vs) == 0.0
  }

  /**
   One submission is accounted for in its own window exactly when its timestamp is positive as an int32_t,
   or is aligned: see `Counters.OneCountedIff`.
   */
  lemma OneSampledIff(rules: seq<Rule<pos>>, name: string, x: Option<Sample>, window: pos, ts: u32, vs: Values)
    requires window < 0x8000_0000 && FindSample(rules, name, x) == Some(FreshSample(window))
    ensures Conserves(rules, name, x, window, [Submit(ts, vs)], W.WinStart(window, ts))
            <==> Unnoticed(vs) || InRange(ts) || Aligned(window, ts)
  {
    hide RunOf, W.WinStart, W.InWindow, Submitted, Stamp, DataAll, Data, SumOf, Square;
    RunOne(SampleMachine(rules, name), x, Submit(ts, vs));
    OneSubmitted(window, ts, vs);
    OneItemValues(ts, vs);
    Moments(vs);
    if ts >= 0x8000_0000 {
      StampIff(window, ts);
    } else {
      StampInRange(window, ts);
    }
  }

  lemma OneItemValues(ts: u32, vs: Values)
    ensures AllValues([W.Item(ts as int, vs)]) == vs
  {
    var item := W.Item(ts as int, vs);
    assert Front([item]) == [] && AllValues([]) == [];
    assert AllValues([item]) == [] + vs == vs;
  }

  /**
   Exactly when conservation holds: every run of submissions and ticks with timestamps from a given
   set is accounted for in every window if and only if all timestamps of the set are in range, or it
   has a single timestamp and that is aligned.
   */
  lemma SampleConservedIff(rules: seq<Rule<pos>>, name: string, x: Option<Sample>, window: pos, allowed: u32 -> bool)
    requires window < 0x8000_0000 && FindSample(rules, name, x) == Some(FreshSample(window))
    ensures (forall ops, start | Uses(allowed, ops) :: Conserves(rules, name, x, window, ops, start))
            <==> Accountable(window, allowed)
  {
    hide Conserves, Accountable, Uses;
    if Accountable(window, allowed) {
      forall ops, start | Uses(allowed, ops) ensures Conserves(rules, name, x, window, ops, start) {
        AccountedRun(rules, name, x, window, allowed, ops, start);
      }
    } else {
      var ops, start := UnaccountedRun(rules, name, x, window, allowed);
    }
  }

  lemma AccountedRun(rules: seq<Rule<pos>>, name: string, x: Option<Sample>, window: pos, allowed: u32 -> bool,
                     ops: seq<Op<Values>>, start: int)
    requires window < 0x8000_0000 && FindSample(rules, name, x) == Some(FreshSample(window))
    requires Accountable(window, allowed) && Uses(allowed, ops)
    ensures Conserves(rules, name, x, window, ops, start)
  {
    hide Conserves, Aligned, FindSample;
    if ts: u32 :| allowed(ts) && !InRange(ts) {
      AlignedConserved(rules, name, x, window, ts, ops, start);
    } else {
      SampleConserved(rules, name, x, window, ops, start);
    }
  }

  lemma UnaccountedRun(rules: seq<Rule<pos>>, name: string, x: Option<Sample>, window: pos, allowed: u32 -> bool)
    returns (ops: seq<Op<Values>>, start: int)
    requires window < 0x8000_0000 && FindSample(rules, name, x) == Some(FreshSample(window))
    requires !Accountable(window, allowed)
    ensures Uses(allowed, ops) && !Conserves(rules, name, x, window, ops, start)
  {
    hide Conserves, Accountable, FindSample, SumOf;
    var s, t := NotAccountable(window, allowed);
    var vs: Values := [0.0];
    start := W.WinStart(window, s);
    if Aligned(window, s) {
      ops := [Submit(s, vs), Submit(t, vs)];
      MergedIsMisfiled(rules, name, x, window, s, t, vs);
    } else {
      ops := [Submit(s, vs)];
      OneSampledIff(rules, name, x, window, s, vs);
    }
  }

  /** A negative entry never rolls over: what comes next is added to it, and its own window is lost. */
  lemma MergedIsMisfiled(rules: seq<Rule<pos>>, name: string, x: Option<Sample>, window: pos, s: u32, t: u32,
                         vs: Values)
    requires s >= 0x8000_0000 && FindSample(rules, name, x) == Some(FreshSample(window))
    requires W.WinStart(window, s) != W.WinStart(window, t) && |vs| == 1
    ensures !Conserves(rules, name, x, window, [Submit(s, vs), Submit(t, vs)], W.WinStart(window, s))
  {
    hide RunOf, W.WinStart, W.InWindow, Submitted, Stamp, SumOf, DataAll;
    RunPair(SampleMachine(rules, name), x, Submit(s, vs), Submit(t, vs));
    PairSubmitted(window, s, vs, t, vs);
    OneItemValues(s, vs);
    DataAllCounts(EMPTY, vs);
    DataAllCounts(DataAll(EMPTY, vs), vs);
  }

  lemma {:induction false} DataAllCounts(s: Stats, vs: seq<real>)
    ensures DataAll(s, vs).n == s.n + |vs| && DataAll(s, vs).sum == s.sum + Sum(vs)
  {
    hide Data;
    if vs == [] {
    } else {
      DataAllCounts(s, vs[..|vs| - 1]);
      DataAllLast(s, vs);
      DataSums(DataAll(s, vs[..|vs| - 1]), vs[|vs| - 1]);
    }
  }

  lemma DataSums(s: Stats, v: real)
    ensures Data(s, v).n == s.n + 1 && Data(s, v).sum == s.sum + v
  {
  }

  /** The entry of a sample set that only ever sees the timestamp `ts`. */
  ghost predicate Steady(found: Option<Sample>, window: pos, ts: u32) {
    && found.Some? && found.value.window == window && !found.value.ignore
    && (if found.value.lastSeen == 0 then found.value.stats == EMPTY else found.value.lastSeen == ToI32(ts))
  }

  /** A run of submissions with one aligned timestamp is accounted for, whatever the ticks. */
  lemma {:induction false} AlignedConserved(rules: seq<Rule<pos>>, name: string, x: Option<Sample>, window: pos,
                                            ts: u32, ops: seq<Op<Values>>, start: int)
    requires window < 0x8000_0000 && FindSample(rules, name, x) == Some(FreshSample(window))
    requires Aligned(window, ts) && forall i | 0 <= i < |ops| :: !ops[i].Forget? && (ops[i].Submit? ==> ops[i].ts == ts)
    ensures Conserves(rules, name, x, window, ops, start)
    ensures Steady(FindSample(rules, name, SampleRun(rules, name, x, ops).0), window, ts)
  {
    hide W.WinStart, SampleStep, FindSample, Aligned, Stamp, Steady, BroadcastSums, PendingSums, SumOf, AllValues;
    hide Low32, Added;
    if ops == [] {
      NothingConserved(rules, name, x, window, ts, start);
    } else {
      var before, op := Front(ops), Last(ops);
      assert op == ops[|ops| - 1];
      AlignedConserved(rules, name, x, window, ts, before, start);
      var (x1, out1) := SampleRun(rules, name, x, before);
      AlignedStep(rules, name, x1, window, ts, op, out1, start);
      ValuesMore(window, before, ts, op, start);
      FrontLast(ops);
      var was, more := AllValues(W.InWindow(window, Submitted(before), start)), Added(window, ts, op, start);
      SumOfConcat(Same, was, more);
      var (n, _) := BroadcastSums(out1, start);
      var (n', _) := PendingSums(x1, start);
      Low32Laws(n + n', |more|);
      Low32Laws(|was|, |more|);
    }
  }

  lemma NothingConserved(rules: seq<Rule<pos>>, name: string, x: Option<Sample>, window: pos, ts: u32, start: int)
    requires FindSample(rules, name, x) == Some(FreshSample(window))
    ensures Conserves(rules, name, x, window, [], start)
    ensures Steady(FindSample(rules, name, SampleRun(rules, name, x, []).0), window, ts)
  {
    assert WinOps<Values>([]) == [] && Submitted<Values>([]) == [];
  }

  /** The values an operation adds to the window starting at `start`. */
  function Added(window: pos, ts: u32, op: Op<Values>, start: int): seq<real> {
    if op.Submit? && W.WinStart(window, ts) == start then op.payload else []
  }

  /** What a step adds to the broadcasts and the pending values of a steady sample set is what it submits. */
  lemma AlignedStep(rules: seq<Rule<pos>>, name: string, x: Option<Sample>, window: pos, ts: u32, op: Op<Values>,
                    out: seq<Broadcast>, start: int)
    requires window < 0x8000_0000 && Steady(FindSample(rules, name, x), window, ts) && Aligned(window, ts)
    requires !op.Forget? && (op.Submit? ==> op.ts == ts)
    ensures var (x', more) := SampleStep(rules, name, x, op);
            var (n, sum), (n', sum') := BroadcastSums(out, start), PendingSums(x, start);
            var (m, total), (m', total') := BroadcastSums(out + more, start), PendingSums(x', start);
            var added := Added(window, ts, op, start);
            && Steady(FindSample(rules, name, x'), window, ts)
            && Low32(m + m') == Low32(n + n' + |added|) && total + total' == sum + sum' + Sum(added)
  {
    hide W.WinStart, Stamp, BroadcastSums, DataAll, Data, SumOf, Low32;
    StampIff(window, ts);
    SumOfNone(Same);
    var (x', more) := SampleStep(rules, name, x, op);
    if op.Submit? {
      DataAllCounts(FindSample(rules, name, x).value.stats, op.payload);
    }
    if more == [] {
      assert out + more == out;
    } else {
      assert more == [CastSample(name, x.value)];
      BroadcastSumsAppend(out, more[0], start);
      Low32Laws(BroadcastSums(out, start).0, x.value.stats.n);
      Low32Laws(BroadcastSums(out, start).0 + Low32(x.value.stats.n), 0);
    }
  }

  /** What one more operation adds to the submissions of a window. */
  lemma ValuesMore(window: pos, before: seq<Op<Values>>, ts: u32, op: Op<Values>, start: int)
    requires op.Submit? ==> op.ts == ts
    ensures AllValues(W.InWindow(window, Submitted(before + [op]), start)) ==
            AllValues(W.InWindow(window, Submitted(before), start)) + Added(window, ts, op, start)
  {
    hide W.WinStart, Submitted;
    SubmittedMore(before, op);
    var items := Submitted(before);
    var was := W.InWindow(window, items, start);
    if op.Submit? {
      var it := W.Item(op.ts as int, op.payload);
      assert Front(items + [it]) == items;
      assert Front(was + [it]) == was && was + [] == was;
    } else {
      assert items + [] == items;
    }
  }

  lemma SampleConserved(rules: seq<Rule<pos>>, name: string, x: Option<Sample>, window: pos,
                        ops: seq<Op<Values>>, start: int)
    requires Plain(ops) && FindSample(rules, name, x) == Some(FreshSample(window))
    ensures Conserves(rules, name, x, window, ops, start)
  {
    SampleConservation(rules, name, x, window, ops, start);
  }

  /** What the entry would broadcast if its window closed now. */
  function PendingCast(name: string, x: Option<Sample>): seq<Broadcast> {
    if x.Some? && x.value.lastSeen != 0 then [CastSample(name, x.value)] else []
  }

  // ---------------------------------------------------------------- conservation of the values themselves

  /** The broadcasts labelled with the window starting at `start`. */
  function CastsAt(casts: seq<Broadcast>, start: int): seq<Broadcast> {
    if casts == [] then []
    else CastsAt(Front(casts),
                 start) + (if Last(casts).SampleCast? && Last(casts).ts == start then [Last(casts)] else [])
  }

  /** The broadcast carries the batch statistics of exactly these values, the count modulo 2^32. */
  ghost predicate Carries(b: Broadcast, vs: seq<real>) {
    && vs != [] && b.SampleCast?
    && b.n == |vs| % TWO32 && IsMin(vs, b.min) && IsMax(vs, b.max)
    && b.sum == Sum(vs) && b.mean == Sum(vs) / |vs| as real
    && b.vari == SumSquares(vs) / |vs| as real - Square(b.mean)
  }

  function Flat(groups: seq<seq<real>>): seq<real> {
    if groups == [] then [] else Flat(Front(groups)) + Last(groups)
  }

  /** The broadcasts are about the groups, one each, and the groups are all of `vs` in order. */
  ghost predicate Accounts(casts: seq<Broadcast>, groups: seq<seq<real>>, vs: seq<real>) {
    |groups| == |casts| && (forall i | 0 <= i < |casts| :: Carries(casts[i], groups[i])) && Flat(groups) == vs
  }

  lemma AccountsMore(casts: seq<Broadcast>, groups: seq<seq<real>>, vs: seq<real>, b: Broadcast, more: seq<real>)
    requires Accounts(casts, groups, vs) && Carries(b, more)
    ensures Accounts(casts + [b], groups + [more], vs + more)
  {
    hide Carries;
    assert Front(groups + [more]) == groups;
  }

  lemma CastsAtAppend(casts: seq<Broadcast>, b: Broadcast, start: int)
    ensures CastsAt(casts + [b], start) == CastsAt(casts, start) + (if b.SampleCast? && b.ts == start then [b] else [])
  {
    assert Front(casts + [b]) == casts;
  }

  lemma CastCarries(name: string, window: pos, g: seq<W.Item<Values>>)
    requires TsInRange(g) && g != []
    ensures var b := SampleCasts(name, window)(g);
            && Carries(b, AllValues(g)) && b.name == name
            && b.ts == W.Label(window, g) == Last(g).ts / window * window
  {
    hide W.WinStart, Stamp, DataAll, Carries;
    StampOf(window, g);
    StampInPlainTerms(window, g);
    assert Last(g).payload != [];
    StatsCarry(SampleCasts(name, window)(g).ts, name, AllValues(g));
  }

  lemma StatsCarry(ts: int, name: string, vs: seq<real>)
    requires vs != []
    ensures var s := DataAll(EMPTY, vs);
            Carries(SampleCast(ts, name, Low32(s.n), s.min, s.max, s.sum, s.mean, s.vari), vs)
  {
    hide DataAll, SumOf, Square, IsMin, IsMax;
    Batch(vs);
  }

  /** The broadcast carries the statistics of the values of a window, under the start of the window. */
  ghost predicate SampleTells(name: string, window: pos, b: Broadcast, g: seq<W.Item<Values>>) {
    g != [] && Carries(b, AllValues(g)) && b.name == name && b.ts == Last(g).ts / window * window
  }

  lemma SamplesTold(name: string, window: pos, groups: seq<seq<W.Item<Values>>>)
    requires Usable(groups)
    ensures var casts := Render(SampleCasts(name, window), groups);
            |casts| == |groups| && forall i | 0 <= i < |groups| :: SampleTells(name, window, casts[i], groups[i])
  {
    hide Carries, SampleCasts;
    forall g: seq<W.Item<Values>> | g != [] && TsInRange(g)
      ensures SampleTells(name, window, SampleCasts(name, window)(g), g)
    {
      CastCarries(name, window, g);
    }
    RenderTells(SampleCasts(name, window), groups, (b, g) => SampleTells(name, window, b, g));
  }

  lemma {:induction false} RenderedAccounts(name: string, window: pos, gs: seq<seq<W.Item<Values>>>, start: int)
    returns (groups: seq<seq<real>>)
    requires AllInRange(gs) && forall i | 0 <= i < |gs| :: gs[i] != []
    ensures Accounts(CastsAt(Render(SampleCasts(name, window), gs), start), groups,
                     AllValues(W.Labelled(window, gs, start)))
  {
    hide W.WinStart, Carries, Accounts, CastsAt, Render, AllValues;
    if gs == [] {
      groups := [];
      NothingToAccount(name, window, start);
    } else {
      var cast, before, last := SampleCasts(name, window), Front(gs), Last(gs);
      assert forall i | 0 <= i < |before| :: before[i] == gs[i];
      assert last == gs[|gs| - 1];
      var earlier := RenderedAccounts(name, window, before, start);
      FrontLast(gs);
      RenderAppend(cast, before, last);
      CastsAtAppend(Render(cast, before), cast(last), start);
      CastCarries(name, window, last);
      AllValuesConcat(W.Labelled(window, before, start), W.Part(window, last, start));
      if W.Label(window, last) == start {
        groups := earlier + [AllValues(last)];
        AccountsMore(CastsAt(Render(cast, before), start), earlier, AllValues(W.Labelled(window, before, start)),
                     cast(last), AllValues(last));
      } else {
        groups := earlier;
        assert W.Labelled(window, gs, start) == W.Labelled(window, before, start);
        assert CastsAt(Render(cast, gs), start) == CastsAt(Render(cast, before), start);
      }
    }
  }

  lemma NothingToAccount(name: string, window: pos, start: int)
    ensures Accounts(CastsAt(Render(SampleCasts(name, window), []), start), [],
                     AllValues(W.Labelled(window, [], start)))
  {
  }

  /**
   Conservation of the values, in any arrival order: the values submitted for a window can be cut into
   consecutive groups, one for each broadcast of that window and one for what is pending, such that
   each carries the statistics of exactly its group.
   */
  lemma SampleValuesConserved(rules: seq<Rule<pos>>, name: string, x: Option<Sample>, window: pos, ops: seq<Op<Values>>,
                              start: int)
    returns (groups: seq<seq<real>>)
    requires Plain(ops)
    requires FindSample(rules, name, x) == Some(FreshSample(window))
    ensures var (x', out) := SampleRun(rules, name, x, ops);
            Accounts(CastsAt(out + PendingCast(name, x'), start), groups,
                     AllValues(W.InWindow(window, Submitted(ops), start)))
  {
    hide W.WinStart, Stamp, DataAll, Accounts, CastsAt, AllValues, Render, SampleRun, SampleOf, PendingCast;
    SampleRefines(rules, name, x, window, ops);
    var s := W.Run(window, WinOps(ops));
    W.Conservation(window, WinOps(ops), start);
    ClosedAreUsable(window, ops);
    PendingIsRendered(rules, name, SampleRun(rules, name, x, ops).0, window, s);
    groups := RenderedAccounts(name, window, W.Groups(s), start);
    LabelledGroups(window, s, start);
  }

  lemma LabelledGroups(window: pos, s: W.Win<Values>, start: int)
    ensures W.Labelled(window, W.Groups(s), start)
            == W.Labelled(window, s.closed, start) + W.Part(window, s.pending, start)
  {
    hide W.WinStart;
    if s.pending != [] {
      assert Front(s.closed + [s.pending]) == s.closed;
    }
  }

  lemma PendingIsRendered(rules: seq<Rule<pos>>, name: string, x: Option<Sample>, window: pos, s: W.Win<Values>)
    requires TsInRange(s.pending) && FindSample(rules, name, x) == Some(SampleOf(window, s.pending))
    ensures Render(SampleCasts(name, window), s.closed) + PendingCast(name, x)
            == Render(SampleCasts(name, window), W.Groups(s))
  {
    hide W.WinStart, DataAll;
    if s.pending != [] {
      RenderAppend(SampleCasts(name, window), s.closed, s.pending);
    }
  }

  /** Exactly-once windows for punctual submissions: the broadcasts and the pending window are the batch group-by. */
  lemma SampleExactlyOnce(rules: seq<Rule<pos>>, name: string, x: Option<Sample>, window: pos, grace: int,
                          clock: seq<int>, ops: seq<Op<Values>>)
    requires Punctual(grace, clock, ops)
    requires FindSample(rules, name, x) == Some(FreshSample(window))
    ensures var (x', out) := SampleRun(rules, name, x, ops);
            var batch := Render(SampleCasts(name, window), W.GroupBy(window, Submitted(ops)));
            out + PendingCast(name, x') == batch && LabelsIncrease(batch)
    ensures var casts := SampleRun(rules, name, x, ops).1 + PendingCast(name, SampleRun(rules, name, x, ops).0);
            var groups := W.GroupBy(window, Submitted(ops));
            |casts| == |groups| && forall i | 0 <= i < |groups| :: SampleTells(name, window, casts[i], groups[i])
  {
    hide W.WinStart, Stamp, DataAll, SampleTells;
    SampleRefines(rules, name, x, window, ops);
    forall g: seq<W.Item<Values>> | g != [] && TsInRange(g)
      ensures CastTs(SampleCasts(name, window)(g)) == W.Label(window, g)
    {
      StampOf(window, g);
    }
    RenderedOnce(SampleCasts(name, window), window, grace, clock, ops);
    SamplesTold(name, window, W.GroupBy(window, Submitted(ops)));
  }

  /**
   Windows on time: right after a tick at `now`, punctual submissions have been broadcast, one window each and
   in order, up to the last window that ended more than `grace` ago or was followed by another.
   */
  lemma SampleOnTime(rules: seq<Rule<pos>>, name: string, x: Option<Sample>, window: pos, grace: int,
                     clock: seq<int>, ops: seq<Op<Values>>, now: int)
    requires |clock| == |ops| && Punctual(grace, clock + [now], ops + [Tick(now - grace)])
    requires FindSample(rules, name, x) == Some(FreshSample(window))
    ensures var out := SampleRun(rules, name, x, ops + [Tick(now - grace)]).1;
            var due := W.Ended(window, W.GroupBy(window, Submitted(ops)), now - grace);
            |out| == |due| && forall i | 0 <= i < |due| :: SampleTells(name, window, out[i], due[i])
  {
    hide Punctual, Plain, SampleRun, SampleTells, W.GroupBy, W.Ended, W.Run, FindSample, Submitted, Render, Usable;
    ClosedOnTime(window, grace, clock, ops, now);
    SampleRefines(rules, name, x, window, ops + [Tick(now - grace)]);
    SamplesTold(name, window, W.Ended(window, W.GroupBy(window, Submitted(ops)), now - grace));
  }

  /** A tick broadcasts and empties exactly the sample sets whose window is over, and leaves the others alone. */
  lemma SampleTicked(name: string, x: Sample, cutoff: int)
    ensures SampleTick(name, x, cutoff) ==
            if x.ignore || !Over(x.window, x.lastSeen, cutoff) then (x, [])
            else (x.(lastSeen := 0, stats := EMPTY),
                  [SampleCast(Rounded(x.window, x.lastSeen) % TWO32, name, x.stats.n % TWO32, x.stats.min, x.stats.max,
                              x.stats.sum, x.stats.mean, x.stats.vari)])
  {
    hide Flushes, Over, Stamp, Rounded;
    FlushInPlainTerms(x.window, x.lastSeen, cutoff);
  }

  // ---------------------------------------------------------------- FORGET

  /** After a non-ignoring FORGET the past is gone: everything that follows acts on an unknown name. */
  lemma SampleForgotten(rules: seq<Rule<pos>>, name: string, x: Option<Sample>, before: seq<Op<Values>>,
                        after: seq<Op<Values>>)
    ensures var (_, out1) := SampleRun(rules, name, x, before);
            var (x2, out2) := SampleRun(rules, name, None, after);
            SampleRun(rules, name, x, before + [Forget(false)] + after) == (x2, out1 + out2)
  {
    RunCut(SampleMachine(rules, name), x, before, Forget(false), None, after);
  }

  /** An ignored entry neither changes nor broadcasts until a non-ignoring FORGET removes it. */
  lemma SampleIgnored(rules: seq<Rule<pos>>, name: string, x: Sample, ops: seq<Op<Values>>)
    requires x.ignore
    requires forall i | 0 <= i < |ops| :: ops[i] != Forget(false)
    ensures SampleRun(rules, name, Some(x), ops) == (Some(x), [])
  {
    RunStuck(SampleMachine(rules, name), Some(x), ops);
  }

  /** An ignoring FORGET of an entry sets its flag and nothing else, and from then on the run has no news of it. */
  lemma SampleMarked(rules: seq<Rule<pos>>, name: string, x: Option<Sample>, before: seq<Op<Values>>,
                     after: seq<Op<Values>>)
    requires SampleRun(rules, name, x, before).0.Some?
    requires forall i | 0 <= i < |after| :: after[i] != Forget(false)
    ensures var (x1, out1) := SampleRun(rules, name, x, before);
            SampleRun(rules, name, x, before + [Forget(true)] + after) == (Some(x1.value.(ignore := true)), out1)
  {
    var x1 := SampleRun(rules, name, x, before).0;
    RunFrozen(SampleMachine(rules, name), x, before, Forget(true), Some(x1.value.(ignore := true)), after);
  }
}
