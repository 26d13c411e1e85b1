/** Counters of one name: `counter_t` and the COUNTER, tick and FORGET branches of the kernel. */
module Counters {
  import opened Basics
  import W = Windows
  import opened Machines
  import opened Metrics

  datatype Counter = Counter(window: pos, lastSeen: int, value: u64, ignore: bool)

  function FreshCounter(window: pos): Counter { Counter(window, 0, 0, false) }

  function CounterReset(c: Counter): Counter { c.(lastSeen := 0, value := 0) }

  function CastCounter(name: string, c: Counter): Broadcast {
    CounterCast(Stamp(c.window, c.lastSeen), name, c.value)
  }

  function CounterSubmit(name: string, c: Counter, ts: u32, incr: i32): (Counter, seq<Broadcast>) {
    if c.ignore then (c, [])
    else
      var rolls := RollsOver(c.window, c.lastSeen, ts);
      var c0 := if rolls then CounterReset(c) else c;
      (c0.(lastSeen := ToI32(ts), value := Add64(c0.value, incr)),
       if rolls then [CastCounter(name, c)] else [])
  }

  function CounterTick(name: string, c: Counter, cutoff: int): (Counter, seq<Broadcast>) {
    if c.ignore || !Flushes(c.window, c.lastSeen, cutoff) then (c, [])
    else (CounterReset(c), [CastCounter(name, c)])
  }

  /** The entry `find_counter` returns: the existing one, or a fresh one under the first matching rule. */
  function FindCounter(rules: seq<Rule<pos>>, name: string, c: Option<Counter>): Option<Counter> {
    if c.Some? then c
    else match FirstMatch(rules, name)
      case None => None
      case Some(window) => Some(FreshCounter(window))
  }

  function CounterStep(rules: seq<Rule<pos>>, name: string, c: Option<Counter>, op: Op<i32>)
    : (Option<Counter>, seq<Broadcast>)
  {
    match op
    case Submit(ts, incr) =>
      (match FindCounter(rules, name, c)
       case None => (None, [])
       case Some(found) => var (c', out) := CounterSubmit(name, found, ts, incr); (Some(c'), out))
    case Tick(cutoff) =>
      if c.None? then (None, [])
      else var (c', out) := CounterTick(name, c.value, cutoff); (Some(c'), out)
    case Forget(ignore) =>
      if c.None? || !ignore then (None, []) else (Some(c.value.(ignore := true)), [])
  }

  function CounterMachine(rules: seq<Rule<pos>>, name: string): Machine<Counter, Op<i32>> {
    (c, op) => CounterStep(rules, name, c, op)
  }

  function CounterRun(rules: seq<Rule<pos>>, name: string, c: Option<Counter>, ops: seq<Op<i32>>)
    : (Option<Counter>, seq<Broadcast>)
  {
    RunOf(CounterMachine(rules, name), c, ops)
  }

  // ---------------------------------------------------------------- simulation

  /** The sum of the increments, modulo 2^64. */
  function Total(g: seq<W.Item<i32>>): u64 {
    if g == [] then 0 else Add64(Total(Front(g)), Last(g).payload)
  }

  /** The counter that holds exactly the items `g`. */
  function CounterOf(window: pos, g: seq<W.Item<i32>>): Counter {
    Counter(window, LastTs(g), Total(g), false)
  }

  function CounterCasts(name: string, window: pos): seq<W.Item<i32>> -> Broadcast {
    g => CastCounter(name, CounterOf(window, g))
  }

  lemma CounterSubmitOf(name: string, window: pos, g: seq<W.Item<i32>>, it: W.Item<i32>)
    requires InRange(it.ts) && TsInRange(g)
    ensures CounterSubmit(name, CounterOf(window, g), it.ts, it.payload) ==
            if g != [] && W.Label(window, g) != W.WinStart(window, it.ts)
            then (CounterOf(window, [it]), [CastCounter(name, CounterOf(window, g))])
            else (CounterOf(window, g + [it]), [])
  {
    hide W.WinStart;
    assert Front(g + [it]) == g && Last(g + [it]) == it;
    assert Front([it]) == [] && Last([it]) == it;
    assert Total([it]) == Add64(Total([]), it.payload);
  }

  lemma CounterTickOf(name: string, window: pos, g: seq<W.Item<i32>>, cutoff: int)
    requires TsInRange(g)
    ensures CounterTick(name, CounterOf(window, g), cutoff) ==
            if g != [] && W.WinEnd(window, Last(g).ts) < cutoff
            then (CounterOf(window, []), [CastCounter(name, CounterOf(window, g))])
            else (CounterOf(window, g), [])
  {
    hide W.WinStart;
  }

  lemma CounterStepSimulates(rules: seq<Rule<pos>>, name: string, c: Option<Counter>, window: pos, s: W.Win<i32>,
                             op: Op<i32>)
    requires Plain([op]) && TsInRange(s.pending)
    requires FindCounter(rules, name, c) == Some(CounterOf(window, s.pending))
    ensures var (c', out) := CounterStep(rules, name, c, op);
            var s' := W.Step(window, s, WinOp(op));
            && TsInRange(s'.pending)
            && FindCounter(rules, name, c') == Some(CounterOf(window, s'.pending))
            && Render(CounterCasts(name, window), s'.closed) == Render(CounterCasts(name, window), s.closed) + out
  {
    hide W.WinStart, CounterSubmit, CounterTick;
    assert [op][0] == op;
    RenderAppend(CounterCasts(name, window), s.closed, s.pending);
    match op
    case Submit(ts, incr) => CounterSubmitOf(name, window, s.pending, W.Item(ts, incr));
    case Tick(cutoff) => CounterTickOf(name, window, s.pending, cutoff);
  }

  /** A counter keeps one number per window, yet broadcasts what the item-keeping machine would. */
  lemma {:induction false} CounterRefines(rules: seq<Rule<pos>>, name: string, c: Option<Counter>, window: pos,
                                          ops: seq<Op<i32>>)
    requires Plain(ops)
    requires FindCounter(rules, name, c) == Some(FreshCounter(window))
    ensures var (c', out) := CounterRun(rules, name, c, ops);
            var s := W.Run(window, WinOps(ops));
            && TsInRange(s.pending)
            && FindCounter(rules, name, c') == Some(CounterOf(window, s.pending))
            && out == Render(CounterCasts(name, window), s.closed)
  {
    hide CounterStep, W.Step, FindCounter;
    if ops == [] {
    } else {
      CounterRefines(rules, name, c, window, Front(ops));
      assert Front(WinOps(ops)) == WinOps(Front(ops));
      var (c1, _) := CounterRun(rules, name, c, Front(ops));
      CounterStepSimulates(rules, name, c1, window, W.Run(window, WinOps(Front(ops))), Last(ops));
    }
  }

  // ---------------------------------------------------------------- conservation and exactly-once

  lemma {:induction false} TotalConcat(a: seq<W.Item<i32>>, b: seq<W.Item<i32>>)
    ensures Total(a + b) == Add64(Total(a), Total(b))
  {
    hide Add64;
    Add64Laws(Total(a), 0, 0);
    if b == [] {
      assert a + b == a;
    } else {
      assert Front(a + b) == a + Front(b) && Last(a + b) == Last(b);
      TotalConcat(a, Front(b));
      Add64Laws(Total(a), Total(Front(b)), Last(b).payload);
    }
  }

  /** The sum, modulo 2^64, of the values broadcast for the window starting at `start`. */
  function BroadcastTotal(casts: seq<Broadcast>, start: int): u64 {
    if casts == [] then 0
    else Add64(BroadcastTotal(Front(casts), start),
               if Last(casts).CounterCast? && Last(casts).ts == start then Last(casts).value else 0)
  }

  /** What an entry holds for the window starting at `start`. */
  function PendingTotal(c: Option<Counter>, start: int): u64 {
    if c.Some? && c.value.lastSeen != 0 && Stamp(c.value.window, c.value.lastSeen) == start then c.value.value else 0
  }

  lemma BroadcastTotalMore(out: seq<Broadcast>, b: Broadcast, start: int)
    ensures BroadcastTotal(out + [b], start)
            == Add64(BroadcastTotal(out, start), if b.CounterCast? && b.ts == start then b.value else 0)
  {
    assert Front(out + [b]) == out;
  }

  lemma PartTotal(name: string, window: pos, g: seq<W.Item<i32>>, start: int)
    requires TsInRange(g)
    ensures var b := CounterCasts(name, window)(g);
            b.CounterCast? && (if b.ts == start then b.value else 0) == Total(W.Part(window, g, start))
  {
    hide W.WinStart, Stamp, Add64;
    StampOf(window, g);
  }

  lemma {:induction false} RenderedTotal(name: string, window: pos, groups: seq<seq<W.Item<i32>>>, start: int)
    requires AllInRange(groups)
    ensures BroadcastTotal(Render(CounterCasts(name, window), groups), start)
            == Total(W.Labelled(window, groups, start))
  {
    hide W.WinStart, W.Part, Add64, BroadcastTotal, Total, Render;
    if groups == [] {
      NothingRendered(name, window, start);
    } else {
      var cast, before, last := CounterCasts(name, window), Front(groups), Last(groups);
      assert forall i | 0 <= i < |before| :: before[i] == groups[i];
      assert last == groups[|groups| - 1];
      RenderedTotal(name, window, before, start);
      FrontLast(groups);
      RenderAppend(cast, before, last);
      BroadcastTotalMore(Render(cast, before), cast(last), start);
      PartTotal(name, window, last, start);
      TotalConcat(W.Labelled(window, before, start), W.Part(window, last, start));
    }
  }

  lemma NothingRendered(name: string, window: pos, start: int)
    ensures BroadcastTotal(Render(CounterCasts(name, window), []), start) == Total(W.Labelled(window, [], start))
  {
  }

  /**
   Conservation, in any arrival order: what was broadcast for a window, plus what the entry still
   holds for it, is the sum of the increments submitted with a timestamp in that window.
   */
  lemma CounterConservation(rules: seq<Rule<pos>>, name: string, c: Option<Counter>, window: pos, ops: seq<Op<i32>>,
                            start: int)
    requires Plain(ops)
    requires FindCounter(rules, name, c) == Some(FreshCounter(window))
    ensures var (c', out) := CounterRun(rules, name, c, ops);
            Add64(BroadcastTotal(out, start), PendingTotal(c', start))
            == Total(W.InWindow(window, Submitted(ops), start))
  {
    hide W.WinStart, Stamp, Add64;
    CounterRefines(rules, name, c, window, ops);
    var s := W.Run(window, WinOps(ops));
    GroupsInRange(window, ops);
    StampOf(window, s.pending);
    W.Conservation(window, WinOps(ops), start);
    RenderedTotal(name, window, s.closed, start);
    TotalConcat(W.Labelled(window, s.closed, start), W.Part(window, s.pending, start));
  }

  /** The equation of `CounterConservation`, for one run and one window. */
  ghost predicate Conserves(rules: seq<Rule<pos>>, name: string, c: Option<Counter>, window: pos,
                            ops: seq<Op<i32>>, start: int) {
    var (c', out) := CounterRun(rules, name, c, ops);
    Add64(BroadcastTotal(out, start), PendingTotal(c', start)) == Total(W.InWindow(window, Submitted(ops), start))
  }

  /**
   One submission is accounted for in its own window exactly when its timestamp is positive as an int32_t,
   or is aligned: 0 counts as "no data", and from 2^31 on the stored time is negative and rounds up.
   */
  lemma OneCountedIff(rules: seq<Rule<pos>>, name: string, c: Option<Counter>, window: pos, ts: u32, a: i32)
    requires window < 0x8000_0000 && FindCounter(rules, name, c) == Some(FreshCounter(window))
    ensures Conserves(rules, name, c, window, [Submit(ts, a)], W.WinStart(window, ts))
            <==> a == 0 || InRange(ts) || Aligned(window, ts)
  {
    hide RunOf, W.WinStart, W.InWindow, Submitted, Stamp;
    RunOne(CounterMachine(rules, name), c, Submit(ts, a));
    OneSubmitted(window, ts, a);
    OneTotal(ts, a);
    if ts >= 0x8000_0000 {
      StampIff(window, ts);
    } else {
      StampInRange(window, ts);
    }
  }

  lemma OneTotal(ts: u32, a: i32)
    ensures Total([W.Item(ts as int, a)]) == Add64(0, a)
  {
    assert Front([W.Item(ts as int, a)]) == [] && Total([]) == 0;
  }

  /**
   Exactly when conservation holds: every run of submissions and ticks with timestamps from a given
   set is accounted for in every window if and only if all timestamps of the set are in range, or it
   has a single timestamp and that is aligned.
   */
  lemma CounterConservedIff(rules: seq<Rule<pos>>, name: string, c: Option<Counter>, window: pos, allowed: u32 -> bool)
    requires window < 0x8000_0000 && FindCounter(rules, name, c) == Some(FreshCounter(window))
    ensures (forall ops, start | Uses(allowed, ops) :: Conserves(rules, name, c, window, ops, start))
            <==> Accountable(window, allowed)
  {
    hide Conserves, Accountable, Uses;
    if Accountable(window, allowed) {
      forall ops, start | Uses(allowed, ops) ensures Conserves(rules, name, c, window, ops, start) {
        AccountedRun(rules, name, c, window, allowed, ops, start);
      }
    } else {
      var ops, start := UnaccountedRun(rules, name, c, window, allowed);
    }
  }

  lemma AccountedRun(rules: seq<Rule<pos>>, name: string, c: Option<Counter>, window: pos, allowed: u32 -> bool,
                     ops: seq<Op<i32>>, start: int)
    requires window < 0x8000_0000 && FindCounter(rules, name, c) == Some(FreshCounter(window))
    requires Accountable(window, allowed) && Uses(allowed, ops)
    ensures Conserves(rules, name, c, window, ops, start)
  {
    hide Conserves, Aligned, FindCounter;
    if ts: u32 :| allowed(ts) && !InRange(ts) {
      AlignedConserved(rules, name, c, window, ts, ops, start);
    } else {
      CounterConserved(rules, name, c, window, ops, start);
    }
  }

  lemma UnaccountedRun(rules: seq<Rule<pos>>, name: string, c: Option<Counter>, window: pos, allowed: u32 -> bool)
    returns (ops: seq<Op<i32>>, start: int)
    requires window < 0x8000_0000 && FindCounter(rules, name, c) == Some(FreshCounter(window))
    requires !Accountable(window, allowed)
    ensures Uses(allowed, ops) && !Conserves(rules, name, c, window, ops, start)
  {
    hide Conserves, Accountable, FindCounter;
    var s, t := NotAccountable(window, allowed);
    start := W.WinStart(window, s);
    if Aligned(window, s) {
      ops := [Submit(s, 1), Submit(t, 1)];
      MergedIsMisfiled(rules, name, c, window, s, t);
    } else {
      ops := [Submit(s, 1)];
      OneCountedIff(rules, name, c, window, s, 1);
    }
  }

  /** A negative entry never rolls over: what comes next is added to it, and its own window is lost. */
  lemma MergedIsMisfiled(rules: seq<Rule<pos>>, name: string, c: Option<Counter>, window: pos, s: u32, t: u32)
    requires s >= 0x8000_0000 && FindCounter(rules, name, c) == Some(FreshCounter(window))
    requires W.WinStart(window, s) != W.WinStart(window, t)
    ensures !Conserves(rules, name, c, window, [Submit(s, 1), Submit(t, 1)], W.WinStart(window, s))
  {
    hide RunOf, W.WinStart, W.InWindow, Submitted, Stamp;
    RunPair(CounterMachine(rules, name), c, Submit(s, 1), Submit(t, 1));
    PairSubmitted(window, s, 1 as i32, t, 1 as i32);
    OneTotal(s, 1);
  }

  /** The entry of a counter that only ever sees the timestamp `ts`. */
  ghost predicate Steady(found: Option<Counter>, window: pos, ts: u32) {
    && found.Some? && found.value.window == window && !found.value.ignore
    && (if found.value.lastSeen == 0 then found.value.value == 0 else found.value.lastSeen == ToI32(ts))
  }

  /** A run of submissions with one aligned timestamp is accounted for, whatever the ticks. */
  lemma {:induction false} AlignedConserved(rules: seq<Rule<pos>>, name: string, c: Option<Counter>, window: pos,
                                            ts: u32, ops: seq<Op<i32>>, start: int)
    requires window < 0x8000_0000 && FindCounter(rules, name, c) == Some(FreshCounter(window))
    requires Aligned(window, ts) && forall i | 0 <= i < |ops| :: !ops[i].Forget? && (ops[i].Submit? ==> ops[i].ts == ts)
    ensures Conserves(rules, name, c, window, ops, start)
    ensures Steady(FindCounter(rules, name, CounterRun(rules, name, c, ops).0), window, ts)
  {
    hide Add64, W.WinStart, CounterStep, FindCounter, Aligned, Stamp, Steady, BroadcastTotal;
    if ops == [] {
      NothingConserved(rules, name, c, window, ts, start);
    } else {
      var before, op := Front(ops), Last(ops);
      assert op == ops[|ops| - 1];
      AlignedConserved(rules, name, c, window, ts, before, start);
      var (c1, out1) := CounterRun(rules, name, c, before);
      AlignedStep(rules, name, c1, window, ts, op, out1, start);
      TotalMore(window, before, op, start);
      FrontLast(ops);
    }
  }

  /** What one more operation adds to the submissions of a window. */
  lemma TotalMore(window: pos, before: seq<Op<i32>>, op: Op<i32>, start: int)
    ensures Total(W.InWindow(window, Submitted(before + [op]), start)) ==
            Add64(Total(W.InWindow(window, Submitted(before), start)),
                  if op.Submit? && W.WinStart(window, op.ts) == start then op.payload else 0)
  {
    hide Add64, W.WinStart, Submitted;
    SubmittedMore(before, op);
    var items := Submitted(before);
    var was := W.InWindow(window, items, start);
    Add64Laws(Total(was), 0, 0);
    if op.Submit? {
      var it := W.Item(op.ts as int, op.payload);
      assert Front(items + [it]) == items;
      assert Front(was + [it]) == was && was + [] == was;
    } else {
      assert items + [] == items;
    }
  }

  lemma NothingConserved(rules: seq<Rule<pos>>, name: string, c: Option<Counter>, window: pos, ts: u32, start: int)
    requires FindCounter(rules, name, c) == Some(FreshCounter(window))
    ensures Conserves(rules, name, c, window, [], start)
    ensures Steady(FindCounter(rules, name, CounterRun(rules, name, c, []).0), window, ts)
  {
    assert WinOps<i32>([]) == [] && Submitted<i32>([]) == [];
  }

  /** What a step adds to the broadcasts and the pending value of a steady counter is what it submits. */
  lemma AlignedStep(rules: seq<Rule<pos>>, name: string, c: Option<Counter>, window: pos, ts: u32, op: Op<i32>,
                    out: seq<Broadcast>, start: int)
    requires window < 0x8000_0000 && Steady(FindCounter(rules, name, c), window, ts) && Aligned(window, ts)
    requires !op.Forget? && (op.Submit? ==> op.ts == ts)
    ensures var (c', more) := CounterStep(rules, name, c, op);
            && Steady(FindCounter(rules, name, c'), window, ts)
            && Add64(BroadcastTotal(out + more, start), PendingTotal(c', start)) ==
               Add64(Add64(BroadcastTotal(out, start), PendingTotal(c, start)),
                     if op.Submit? && W.WinStart(window, ts) == start then op.payload else 0)
  {
    hide Add64, W.WinStart, Stamp, BroadcastTotal;
    StampIff(window, ts);
    var (c', more) := CounterStep(rules, name, c, op);
    var held := PendingTotal(c, start);
    Add64Laws(BroadcastTotal(out, start), held, if op.Submit? then op.payload else 0);
    Add64Laws(held, 0, 0);
    if more == [] {
      assert out + more == out;
      Add64Laws(Add64(BroadcastTotal(out, start), held), 0, 0);
    } else {
      assert more == [CastCounter(name, c.value)];
      BroadcastTotalMore(out, more[0], start);
      Add64Laws(Add64(BroadcastTotal(out, start), held), 0, 0);
    }
  }

  lemma CounterConserved(rules: seq<Rule<pos>>, name: string, c: Option<Counter>, window: pos,
                         ops: seq<Op<i32>>, start: int)
    requires Plain(ops) && FindCounter(rules, name, c) == Some(FreshCounter(window))
    ensures Conserves(rules, name, c, window, ops, start)
  {
    CounterConservation(rules, name, c, window, ops, start);
  }

  /**
   Where the increments of time 0 go: an entry last seen at 0 counts as empty, so what was submitted at
   0 moves into the window of the next submission, and window 0 is short by exactly that increment.
   */
  lemma ZeroTimestampIsMisfiled(rules: seq<Rule<pos>>, name: string, c: Option<Counter>, window: pos, a: i32, ts: u32,
                                b: i32)
    requires InRange(ts) && window <= ts
    requires FindCounter(rules, name, c) == Some(FreshCounter(window))
    ensures var ops := [Submit(0, a), Submit(ts, b)];
            var (c', out) := CounterRun(rules, name, c, ops);
            && out == [] && PendingTotal(c', W.WinStart(window, ts)) == Add64(Add64(0, a), b)
            && (Conserves(rules, name, c, window, ops, 0) <==> a == 0)
  {
    hide RunOf, W.WinStart, W.InWindow, Submitted, Stamp;
    RunPair(CounterMachine(rules, name), c, Submit(0, a), Submit(ts, b));
    W.WinStartBounds(window, 0);
    W.WinStartSigns(window, ts);
    StampInRange(window, ts);
    PairSubmitted(window, 0, a, ts, b);
    OneTotal(0, a);
  }

  /** What the entry would broadcast if its window closed now. */
  function PendingCast(name: string, c: Option<Counter>): seq<Broadcast> {
    if c.Some? && c.value.lastSeen != 0 then [CastCounter(name, c.value)] else []
  }

  /** The sum of the increments. */
  function Increments(g: seq<W.Item<i32>>): int {
    if g == [] then 0 else Increments(Front(g)) + Last(g).payload
  }

  lemma {:induction false} TotalIsSum(g: seq<W.Item<i32>>)
    ensures Total(g) == Increments(g) % TWO64
  {
    if g == [] {
    } else {
      TotalIsSum(Front(g));
      Wraps(Increments(g), Increments(Front(g)), Last(g).payload);
    }
  }

  /** The broadcast says what the items of a window add up to, modulo 2^64, under the start of the window. */
  predicate CounterTells(name: string, window: pos, b: Broadcast, g: seq<W.Item<i32>>) {
    g != [] && b == CounterCast(Last(g).ts / window * window, name, Increments(g) % TWO64)
  }

  lemma CounterTold(name: string, window: pos, g: seq<W.Item<i32>>)
    requires g != [] && TsInRange(g)
    ensures CounterTells(name, window, CounterCasts(name, window)(g), g)
  {
    hide Stamp;
    StampInPlainTerms(window, g);
    TotalIsSum(g);
  }

  /** Exactly-once windows for punctual submissions: the broadcasts and the pending window are the batch group-by. */
  lemma CounterExactlyOnce(rules: seq<Rule<pos>>, name: string, c: Option<Counter>, window: pos, grace: int,
                           clock: seq<int>, ops: seq<Op<i32>>)
    requires Punctual(grace, clock, ops)
    requires FindCounter(rules, name, c) == Some(FreshCounter(window))
    ensures var (c', out) := CounterRun(rules, name, c, ops);
            var batch := Render(CounterCasts(name, window), W.GroupBy(window, Submitted(ops)));
            out + PendingCast(name, c') == batch && LabelsIncrease(batch)
    ensures var casts := CounterRun(rules, name, c, ops).1 + PendingCast(name, CounterRun(rules, name, c, ops).0);
            var groups := W.GroupBy(window, Submitted(ops));
            |casts| == |groups| && forall i | 0 <= i < |groups| :: CounterTells(name, window, casts[i], groups[i])
  {
    hide W.WinStart, Stamp, CounterTells;
    CounterRefines(rules, name, c, window, ops);
    forall g: seq<W.Item<i32>> | g != [] && TsInRange(g)
      ensures CastTs(CounterCasts(name, window)(g)) == W.Label(window, g)
    {
      StampOf(window, g);
    }
    RenderedOnce(CounterCasts(name, window), window, grace, clock, ops);
    CountersTold(name, window, W.GroupBy(window, Submitted(ops)));
  }

  /**
   Windows on time: right after a tick at `now`, punctual submissions have been broadcast, one window each and
   in order, up to the last window that ended more than `grace` ago or was followed by another.
   */
  lemma CounterOnTime(rules: seq<Rule<pos>>, name: string, c: Option<Counter>, window: pos, grace: int,
                      clock: seq<int>, ops: seq<Op<i32>>, now: int)
    requires |clock| == |ops| && Punctual(grace, clock + [now], ops + [Tick(now - grace)])
    requires FindCounter(rules, name, c) == Some(FreshCounter(window))
    ensures var out := CounterRun(rules, name, c, ops + [Tick(now - grace)]).1;
            var due := W.Ended(window, W.GroupBy(window, Submitted(ops)), now - grace);
            |out| == |due| && forall i | 0 <= i < |due| :: CounterTells(name, window, out[i], due[i])
  {
    hide Punctual, Plain, CounterRun, CounterTells, W.GroupBy, W.Ended, W.Run, FindCounter, Submitted, Render, Usable;
    ClosedOnTime(window, grace, clock, ops, now);
    CounterRefines(rules, name, c, window, ops + [Tick(now - grace)]);
    CountersTold(name, window, W.Ended(window, W.GroupBy(window, Submitted(ops)), now - grace));
  }

  lemma CountersTold(name: string, window: pos, groups: seq<seq<W.Item<i32>>>)
    requires Usable(groups)
    ensures var casts := Render(CounterCasts(name, window), groups);
            |casts| == |groups| && forall i | 0 <= i < |groups| :: CounterTells(name, window, casts[i], groups[i])
  {
    hide CounterTells, CounterCasts;
    forall g: seq<W.Item<i32>> | g != [] && TsInRange(g)
      ensures CounterTells(name, window, CounterCasts(name, window)(g), g)
    {
      CounterTold(name, window, g);
    }
    RenderTells(CounterCasts(name, window), groups, (b, g) => CounterTells(name, window, b, g));
  }

  /** A tick broadcasts and empties exactly the counters whose window is over, and leaves the others alone. */
  lemma CounterTicked(name: string, c: Counter, cutoff: int)
    ensures CounterTick(name, c, cutoff) ==
            if c.ignore || !Over(c.window, c.lastSeen, cutoff) then (c, [])
            else (c.(lastSeen := 0, value := 0),
                  [CounterCast(Rounded(c.window, c.lastSeen) % TWO32, name, c.value)])
  {
    hide Flushes, Over, Stamp, Rounded;
    FlushInPlainTerms(c.window, c.lastSeen, cutoff);
  }

  // ---------------------------------------------------------------- FORGET

  /** After a non-ignoring FORGET the past is gone: everything that follows acts on an unknown name. */
  lemma CounterForgotten(rules: seq<Rule<pos>>, name: string, c: Option<Counter>, before: seq<Op<i32>>,
                         after: seq<Op<i32>>)
    ensures var (_, out1) := CounterRun(rules, name, c, before);
            var (c2, out2) := CounterRun(rules, name, None, after);
            CounterRun(rules, name, c, before + [Forget(false)] + after) == (c2, out1 + out2)
  {
    RunCut(CounterMachine(rules, name), c, before, Forget(false), None, after);
  }

  /** An ignored entry neither changes nor broadcasts until a non-ignoring FORGET removes it. */
  lemma CounterIgnored(rules: seq<Rule<pos>>, name: string, c: Counter, ops: seq<Op<i32>>)
    requires c.ignore
    requires forall i | 0 <= i < |ops| :: ops[i] != Forget(false)
    ensures CounterRun(rules, name, Some(c), ops) == (Some(c), [])
  {
    RunStuck(CounterMachine(rules, name), Some(c), ops);
  }

  /** An ignoring FORGET of an entry sets its flag and nothing else, and from then on the run has no news of it. */
  lemma CounterMarked(rules: seq<Rule<pos>>, name: string, c: Option<Counter>, before: seq<Op<i32>>,
                      after: seq<Op<i32>>)
    requires CounterRun(rules, name, c, before).0.Some?
    requires forall i | 0 <= i < |after| :: after[i] != Forget(false)
    ensures var (c1, out1) := CounterRun(rules, name, c, before);
            CounterRun(rules, name, c, before + [Forget(true)] + after) == (Some(c1.value.(ignore := true)), out1)
  {
    var c1 := CounterRun(rules, name, c, before).0;
    RunFrozen(CounterMachine(rules, name), c, before, Forget(true), Some(c1.value.(ignore := true)), after);
  }
}
