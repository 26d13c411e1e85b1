/** Rates of one name: `rate_t` and the RATE, tick and FORGET branches of the kernel. */
module Rates {
  import opened Basics
  import W = Windows
  import opened Machines
  import opened Metrics

  datatype Rate = Rate(window: pos, firstSeen: int, lastSeen: int, first: u64, last: u64, ignore: bool)

  function FreshRate(window: pos): Rate { Rate(window, 0, 0, 0, 0, false) }

  function RateReset(r: Rate): Rate { r.(firstSeen := 0, lastSeen := 0, first := 0, last := 0) }

  /** The distance a counter travelled, with the code's guess about where it wrapped. */
  function Difference(first: u64, last: u64): u64 {
    if last >= first then last - first
    else if first < 0xffff then 0xffff - first + last
    else Add64(last, 0xffff_ffff - first)
  }

  /** Per-span rate; two readings at the same instant make the source divide by zero. */
  function RateCalc(r: Rate, span: int): RateValue {
    if r.lastSeen == 0 then PerSpan(0.0)
    else if r.lastSeen == r.firstSeen then Undefined
    else PerSpan(Difference(r.first, r.last) as real / (r.lastSeen - r.firstSeen) as real * span as real)
  }

  function CastRate(name: string, r: Rate): Broadcast {
    RateCast(Stamp(r.window, r.lastSeen), name, r.window, RateCalc(r, r.window))
  }

  function RateSubmit(name: string, r: Rate, ts: u32, v: u64): (Rate, seq<Broadcast>) {
    if r.ignore then (r, [])
    else
      var rolls := RollsOver(r.window, r.lastSeen, ts);
      var r0 := if rolls then RateReset(r) else r;
      (r0.(firstSeen := if r0.firstSeen == 0 then ToI32(ts) else r0.firstSeen,
           lastSeen := ToI32(ts),
           first := if r0.lastSeen == 0 then v else r0.first,
           last := v),
       if rolls then [CastRate(name, r)] else [])
  }

  function RateTick(name: string, r: Rate, cutoff: int): (Rate, seq<Broadcast>) {
    if r.ignore || !Flushes(r.window, r.lastSeen, cutoff) then (r, [])
    else (RateReset(r), [CastRate(name, r)])
  }

  /** The entry `find_rate` returns. */
  function FindRate(rules: seq<Rule<pos>>, name: string, r: Option<Rate>): Option<Rate> {
    if r.Some? then r
    else match FirstMatch(rules, name)
      case None => None
      case Some(window) => Some(FreshRate(window))
  }

  function RateStep(rules: seq<Rule<pos>>, name: string, r: Option<Rate>, op: Op<u64>): (Option<Rate>, seq<Broadcast>) {
    match op
    case Submit(ts, v) =>
      (match FindRate(rules, name, r)
       case None => (None, [])
       case Some(found) => var (r', out) := RateSubmit(name, found, ts, v); (Some(r'), out))
    case Tick(cutoff) =>
      if r.None? then (None, [])
      else var (r', out) := RateTick(name, r.value, cutoff); (Some(r'), out)
    case Forget(ignore) =>
      if r.None? || !ignore then (None, []) else (Some(r.value.(ignore := true)), [])
  }

  function RateMachine(rules: seq<Rule<pos>>, name: string): Machine<Rate, Op<u64>> {
    (r, op) => RateStep(rules, name, r, op)
  }

  function RateRun(rules: seq<Rule<pos>>, name: string, r: Option<Rate>, ops: seq<Op<u64>>)
    : (Option<Rate>, seq<Broadcast>)
  {
    RunOf(RateMachine(rules, name), r, ops)
  }

  // ---------------------------------------------------------------- simulation

  /** The rate that has seen exactly the readings `g`: it remembers the first and the last. */
  function RateOf(window: pos, g: seq<W.Item<u64>>): Rate {
    if g == [] then FreshRate(window)
    else Rate(window, g[0].ts, Last(g).ts, g[0].payload, Last(g).payload, false)
  }

  function RateCasts(name: string, window: pos): seq<W.Item<u64>> -> Broadcast {
    g => CastRate(name, RateOf(window, g))
  }

  lemma RateSubmitOf(name: string, window: pos, g: seq<W.Item<u64>>, it: W.Item<u64>)
    requires InRange(it.ts) && TsInRange(g)
    ensures RateSubmit(name, RateOf(window, g), it.ts, it.payload) ==
            if g != [] && W.Label(window, g) != W.WinStart(window, it.ts)
            then (RateOf(window, [it]), [CastRate(name, RateOf(window, g))])
            else (RateOf(window, g + [it]), [])
  {
    hide W.WinStart, CastRate;
    assert Last(g + [it]) == it && Last([it]) == it;
  }

  lemma RateTickOf(name: string, window: pos, g: seq<W.Item<u64>>, cutoff: int)
    requires TsInRange(g)
    ensures RateTick(name, RateOf(window, g), cutoff) ==
            if g != [] && W.WinEnd(window, Last(g).ts) < cutoff
            then (RateOf(window, []), [CastRate(name, RateOf(window, g))])
            else (RateOf(window, g), [])
  {
    hide W.WinStart, CastRate;
  }

  lemma RateStepSimulates(rules: seq<Rule<pos>>, name: string, r: Option<Rate>, window: pos, s: W.Win<u64>, op: Op<u64>)
    requires Plain([op]) && TsInRange(s.pending)
    requires FindRate(rules, name, r) == Some(RateOf(window, s.pending))
    ensures var (r', out) := RateStep(rules, name, r, op);
            var s' := W.Step(window, s, WinOp(op));
            && TsInRange(s'.pending)
            && FindRate(rules, name, r') == Some(RateOf(window, s'.pending))
            && Render(RateCasts(name, window), s'.closed) == Render(RateCasts(name, window), s.closed) + out
  {
    hide W.WinStart, RateSubmit, RateTick, CastRate;
    assert [op][0] == op;
    RenderAppend(RateCasts(name, window), s.closed, s.pending);
    match op
    case Submit(ts, v) => RateSubmitOf(name, window, s.pending, W.Item(ts, v));
    case Tick(cutoff) => RateTickOf(name, window, s.pending, cutoff);
  }

  lemma {:induction false} RateRefines(rules: seq<Rule<pos>>, name: string, r: Option<Rate>, window: pos,
                                       ops: seq<Op<u64>>)
    requires Plain(ops)
    requires FindRate(rules, name, r) == Some(FreshRate(window))
    ensures var (r', out) := RateRun(rules, name, r, ops);
            var s := W.Run(window, WinOps(ops));
            && TsInRange(s.pending)
            && FindRate(rules, name, r') == Some(RateOf(window, s.pending))
            && out == Render(RateCasts(name, window), s.closed)
  {
    hide RateStep, W.Step, FindRate, CastRate;
    if ops == [] {
    } else {
      RateRefines(rules, name, r, window, Front(ops));
      assert Front(WinOps(ops)) == WinOps(Front(ops));
      var (r1, _) := RateRun(rules, name, r, Front(ops));
      RateStepSimulates(rules, name, r1, window, W.Run(window, WinOps(Front(ops))), Last(ops));
    }
  }

  /** What the entry would broadcast if its window closed now. */
  function PendingCast(name: string, r: Option<Rate>): seq<Broadcast> {
    if r.Some? && r.value.lastSeen != 0 then [CastRate(name, r.value)] else []
  }

  /** Exactly-once windows for punctual readings: one rate per window, from its first and last reading. */
  lemma RateExactlyOnce(rules: seq<Rule<pos>>, name: string, r: Option<Rate>, window: pos, grace: int,
                        clock: seq<int>, ops: seq<Op<u64>>)
    requires Punctual(grace, clock, ops)
    requires FindRate(rules, name, r) == Some(FreshRate(window))
    ensures var (r', out) := RateRun(rules, name, r, ops);
            var batch := Render(RateCasts(name, window), W.GroupBy(window, Submitted(ops)));
            out + PendingCast(name, r') == batch && LabelsIncrease(batch)
    ensures var casts := RateRun(rules, name, r, ops).1 + PendingCast(name, RateRun(rules, name, r, ops).0);
            var groups := W.GroupBy(window, Submitted(ops));
            |casts| == |groups| && forall i | 0 <= i < |groups| :: RateTells(name, window, casts[i], groups[i])
  {
    hide W.WinStart, Stamp, RateCalc, RateTells;
    RateRefines(rules, name, r, window, ops);
    forall g: seq<W.Item<u64>> | g != [] && TsInRange(g)
      ensures CastTs(RateCasts(name, window)(g)) == W.Label(window, g)
    {
      StampOf(window, g);
    }
    RenderedOnce(RateCasts(name, window), window, grace, clock, ops);
    RatesTold(name, window, W.GroupBy(window, Submitted(ops)));
  }

  /**
   Windows on time: right after a tick at `now`, punctual readings have been broadcast, one window each and
   in order, up to the last window that ended more than `grace` ago or was followed by another.
   */
  lemma RateOnTime(rules: seq<Rule<pos>>, name: string, r: Option<Rate>, window: pos, grace: int,
                   clock: seq<int>, ops: seq<Op<u64>>, now: int)
    requires |clock| == |ops| && Punctual(grace, clock + [now], ops + [Tick(now - grace)])
    requires FindRate(rules, name, r) == Some(FreshRate(window))
    ensures var out := RateRun(rules, name, r, ops + [Tick(now - grace)]).1;
            var due := W.Ended(window, W.GroupBy(window, Submitted(ops)), now - grace);
            |out| == |due| && forall i | 0 <= i < |due| :: RateTells(name, window, out[i], due[i])
  {
    hide Punctual, Plain, RateRun, RateTells, W.GroupBy, W.Ended, W.Run, FindRate, Submitted, Render, Usable;
    ClosedOnTime(window, grace, clock, ops, now);
    RateRefines(rules, name, r, window, ops + [Tick(now - grace)]);
    RatesTold(name, window, W.Ended(window, W.GroupBy(window, Submitted(ops)), now - grace));
  }

  // ---------------------------------------------------------------- what a rate says

  /** The rate over the elapsed time is the distance travelled, per span. */
  predicate Slope(rate: RateValue, elapsed: int, distance: int, span: int) {
    if elapsed == 0 then rate == Undefined
    else rate.PerSpan? && rate.value * elapsed as real == distance as real * span as real
  }

  /** The rate an entry with data gives, for readings that may have fallen. */
  lemma RateCalcSlopes(r: Rate, span: int)
    requires r.lastSeen != 0
    ensures Slope(RateCalc(r, span), r.lastSeen - r.firstSeen, Difference(r.first, r.last), span)
  {
    hide Difference;
    if r.lastSeen != r.firstSeen {
      var d, e, s := Difference(r.first, r.last) as real, (r.lastSeen - r.firstSeen) as real, span as real;
      assert d / e * e == d;
      assert (d / e * s) * e == (d / e * e) * s;
    }
  }

  /**
   The code's guess about a reading that fell: a 16-bit or a 32-bit counter wrapped, and one count less was
   travelled than it takes to get round; from 2^32 on the 64-bit arithmetic itself may wrap.
   */
  lemma FallenReading(first: u64, last: u64)
    requires last < first
    ensures first < 0xffff ==> Difference(first, last) + 1 == (last - first) % 0x1_0000
    ensures 0xffff <= first < TWO32 && first - last < TWO32 ==> Difference(first, last) + 1 == (last - first) % TWO32
    ensures TWO32 <= first ==>
              Difference(first, last) ==
              if first - last < TWO32 then TWO32 - 1 - (first - last) else TWO64 + TWO32 - 1 - (first - last)
  {
    assert first < 0xffff ==> (last - first) % 0x1_0000 == last - first + 0x1_0000;
    assert first < TWO32 ==> (last - first) % TWO32 == last - first + TWO32;
  }

  /**
   The broadcast says, under the start of the window, how fast the reading rose between the first and the last
   reading of the window, per window; two readings at the same instant leave it undefined.
   */
  predicate RateTells(name: string, window: pos, b: Broadcast, g: seq<W.Item<u64>>) {
    && g != [] && b.RateCast?
    && b.ts == Last(g).ts / window * window && b.name == name && b.span == window
    && Slope(b.rate, Last(g).ts - g[0].ts,
             if g[0].payload <= Last(g).payload then Last(g).payload - g[0].payload
             else Difference(g[0].payload, Last(g).payload), window)
  }

  lemma RateTold(name: string, window: pos, g: seq<W.Item<u64>>)
    requires g != [] && TsInRange(g)
    ensures RateTells(name, window, RateCasts(name, window)(g), g)
  {
    hide Stamp, RateCalc, Slope;
    StampInPlainTerms(window, g);
    RateCalcSlopes(RateOf(window, g), window);
  }

  lemma RatesTold(name: string, window: pos, groups: seq<seq<W.Item<u64>>>)
    requires Usable(groups)
    ensures var casts := Render(RateCasts(name, window), groups);
            |casts| == |groups| && forall i | 0 <= i < |groups| :: RateTells(name, window, casts[i], groups[i])
  {
    hide RateTells, RateCasts;
    forall g: seq<W.Item<u64>> | g != [] && TsInRange(g)
      ensures RateTells(name, window, RateCasts(name, window)(g), g)
    {
      RateTold(name, window, g);
    }
    RenderTells(RateCasts(name, window), groups, (b, g) => RateTells(name, window, b, g));
  }

  /**
   For readings of a counter that did not wrap, taken at different times, the rate times the elapsed
   time is the distance travelled times the span.
   */
  lemma RateIsAverageSlope(window: pos, g: seq<W.Item<u64>>)
    requires TsInRange(g) && g != []
    requires g[0].ts < Last(g).ts && g[0].payload <= Last(g).payload
    ensures var rate := RateCalc(RateOf(window, g), window);
            && rate.PerSpan?
            && rate.value * (Last(g).ts - g[0].ts) as real == (Last(g).payload - g[0].payload) as real * window as real
  {
    hide RateCalc;
    RateCalcSlopes(RateOf(window, g), window);
  }

  /** A tick broadcasts and empties exactly the rates whose window is over, and leaves the others alone. */
  lemma RateTicked(name: string, r: Rate, cutoff: int)
    ensures var (r', out) := RateTick(name, r, cutoff);
            if r.ignore || !Over(r.window, r.lastSeen, cutoff) then (r', out) == (r, [])
            else
              && r' == r.(firstSeen := 0, lastSeen := 0, first := 0, last := 0)
              && |out| == 1 && out[0].RateCast? && out[0].name == name && out[0].span == r.window
              && out[0].ts == Rounded(r.window, r.lastSeen) % TWO32
              && Slope(out[0].rate, r.lastSeen - r.firstSeen, Difference(r.first, r.last), r.window)
  {
    hide Flushes, Over, Stamp, Rounded, RateCalc, Difference, Slope;
    FlushInPlainTerms(r.window, r.lastSeen, cutoff);
    if Over(r.window, r.lastSeen, cutoff) {
      assert r.lastSeen != 0 by { OverHasData(r.window, r.lastSeen, cutoff); }
      RateCalcSlopes(r, r.window);
    }
  }

  // ---------------------------------------------------------------- FORGET

  /** After a non-ignoring FORGET the past is gone: everything that follows acts on an unknown name. */
  lemma RateForgotten(rules: seq<Rule<pos>>, name: string, r: Option<Rate>, before: seq<Op<u64>>, after: seq<Op<u64>>)
    ensures var (_, out1) := RateRun(rules, name, r, before);
            var (r2, out2) := RateRun(rules, name, None, after);
            RateRun(rules, name, r, before + [Forget(false)] + after) == (r2, out1 + out2)
  {
    RunCut(RateMachine(rules, name), r, before, Forget(false), None, after);
  }

  /** An ignored entry neither changes nor broadcasts until a non-ignoring FORGET removes it. */
  lemma RateIgnored(rules: seq<Rule<pos>>, name: string, r: Rate, ops: seq<Op<u64>>)
    requires r.ignore
    requires forall i | 0 <= i < |ops| :: ops[i] != Forget(false)
    ensures RateRun(rules, name, Some(r), ops) == (Some(r), [])
  {
    RunStuck(RateMachine(rules, name), Some(r), ops);
  }

  /** An ignoring FORGET of an entry sets its flag and nothing else, and from then on the run has no news of it. */
  lemma RateMarked(rules: seq<Rule<pos>>, name: string, r: Option<Rate>, before: seq<Op<u64>>, after: seq<Op<u64>>)
    requires RateRun(rules, name, r, before).0.Some?
    requires forall i | 0 <= i < |after| :: after[i] != Forget(false)
    ensures var (r1, out1) := RateRun(rules, name, r, before);
            RateRun(rules, name, r, before + [Forget(true)] + after) == (Some(r1.value.(ignore := true)), out1)
  {
    var r1 := RateRun(rules, name, r, before).0;
    RunFrozen(RateMachine(rules, name), r, before, Forget(true), Some(r1.value.(ignore := true)), after);
  }
}
