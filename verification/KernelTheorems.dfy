/** What whole runs of the kernel guarantee, stated on the inputs of the run and the stream it broadcasts. */
module KernelTheorems {
  import opened Basics
  import opened Machines
  import opened Metrics
  import opened Streams
  import W = Windows
  import opened Kernels
  import C = Counters
  import X = Samples
  import R = Rates
  import opened States
  import opened Events
  import Stats = SampleStats

  // ---------------------------------------------------------------- the share of one name

  /** What a topic saw between two moments of a stream. */
  function News(log: seq<Broadcast>, log': seq<Broadcast>, topic: Topic): seq<Broadcast> {
    var a, b := About(log, topic), About(log', topic);
    if |a| <= |b| then b[|a|..] else []
  }

  /** What a topic saw between two moments of a run. */
  function Since(k: Db, k': Db, topic: Topic): seq<Broadcast> {
    News(k.log, k'.log, topic)
  }

  /** The entry of a name and the news about it are those of its machine. */
  lemma Streamed<S, O>(machine: string -> Machine<S, O>, mk: string -> Topic,
                       ops: string -> seq<O>, was: map<string, S>, log: seq<Broadcast>,
                       will: map<string, S>, log': seq<Broadcast>, n: string)
    requires Moved(machine, mk, ops, was, log, will, log')
    ensures (Lookup(will, n), News(log, log', mk(n))) == RunOf(machine(n), Lookup(was, n), ops(n))
  {
    hide About, RunOf;
    var (_, out) := RunOf(machine(n), Lookup(was, n), ops(n));
    assert About(log', mk(n)) == About(log, mk(n)) + out;
  }

  lemma CounterStream(cfg: Config, ins: seq<Stamped>, k: Db, k': Db, name: string)
    requires Ran(cfg, ins, k, k')
    ensures (Lookup(k'.counters, name), Since(k, k', AboutCounter(name)))
            == C.CounterRun(cfg.counterRules, name, Lookup(k.counters, name), CounterHistory(cfg, k.timers, ins)(name))
  {
    hide Moved;
    Streamed(CounterMachines(cfg), CounterTopic(), CounterHistory(cfg, k.timers, ins),
             k.counters, k.log, k'.counters, k'.log, name);
  }

  lemma SampleStream(cfg: Config, ins: seq<Stamped>, k: Db, k': Db, name: string)
    requires Ran(cfg, ins, k, k')
    ensures (Lookup(k'.samples, name), Since(k, k', AboutSample(name)))
            == X.SampleRun(cfg.sampleRules, name, Lookup(k.samples, name), SampleHistory(cfg, k.timers, ins)(name))
  {
    hide Moved;
    Streamed(SampleMachines(cfg), SampleTopic(), SampleHistory(cfg, k.timers, ins),
             k.samples, k.log, k'.samples, k'.log, name);
  }

  lemma RateStream(cfg: Config, ins: seq<Stamped>, k: Db, k': Db, name: string)
    requires Ran(cfg, ins, k, k')
    ensures (Lookup(k'.rates, name), Since(k, k', AboutRate(name)))
            == R.RateRun(cfg.rateRules, name, Lookup(k.rates, name), RateHistory(cfg, k.timers, ins)(name))
  {
    hide Moved;
    Streamed(RateMachines(cfg), RateTopic(), RateHistory(cfg, k.timers, ins),
             k.rates, k.log, k'.rates, k'.log, name);
  }

  lemma StateStream(cfg: Config, ins: seq<Stamped>, k: Db, k': Db, name: string)
    requires Ran(cfg, ins, k, k')
    ensures (Lookup(k'.states, name), Since(k, k', AboutState(name)))
            == StateRun(cfg.stateRules, name, Lookup(k.states, name), StateHistory(cfg, k.timers, ins)(name))
  {
    hide Moved;
    Streamed(StateMachines(cfg), StateTopic(), StateHistory(cfg, k.timers, ins),
             k.states, k.log, k'.states, k'.log, name);
  }

  /** Every operation of a history comes from an input. */
  lemma {:induction false} HistoryOrigin<O>(f: (Timers, Stamped) -> seq<O>, cfg: Config, t: Timers,
                                            ins: seq<Stamped>, p: O -> bool)
    requires forall t', i | 0 <= i < |ins| :: forall op | op in f(t', ins[i]) :: p(op)
    ensures forall op | op in Project(f, cfg, t, ins) :: p(op)
  {
    if ins == [] {
    } else {
      assert forall i | 0 <= i < |ins| - 1 :: ins[i] == Front(ins)[i];
      HistoryOrigin(f, cfg, t, Front(ins), p);
      assert ins[|ins| - 1] == Last(ins);
    }
  }

  /** The share of a name in two runs, one after the other. */
  lemma {:induction false} ProjectConcat<O>(f: (Timers, Stamped) -> seq<O>, cfg: Config, t: Timers,
                                            a: seq<Stamped>, b: seq<Stamped>)
    ensures TimersAfter(cfg, t, a + b) == TimersAfter(cfg, TimersAfter(cfg, t, a), b)
    ensures Project(f, cfg, t, a + b) == Project(f, cfg, t, a) + Project(f, cfg, TimersAfter(cfg, t, a), b)
  {
    hide TimersNext;
    if b == [] {
      assert a + b == a;
      assert Project(f, cfg, t, a) + [] == Project(f, cfg, t, a);
    } else {
      ProjectConcat(f, cfg, t, a, Front(b));
      assert Front(a + b) == a + Front(b) && Last(a + b) == Last(b);
    }
  }

  // ---------------------------------------------------------------- metrics in general

  /** What an input submits to one metric, if anything. */
  type Submission<P> = Stamped -> Option<W.Item<P>>

  /** The metric sees nothing in the input but the submission, in range, or a tick. */
  ghost predicate PlainFeed<P>(f: (Timers, Stamped) -> seq<Op<P>>, item: Submission<P>, grace: int, at: Stamped) {
    forall t ::
      var ops := f(t, at);
      match item(at)
      case Some(it) => |ops| == 1 && ops[0].Submit? && W.Item(ops[0].ts, ops[0].payload) == it && InRange(it.ts)
      case None => ops == [] || ops == [Op.Tick(at.now - grace)]
  }

  ghost predicate PlainFeeds<P>(f: (Timers, Stamped) -> seq<Op<P>>, item: Submission<P>, grace: int,
                                ins: seq<Stamped>) {
    forall i | 0 <= i < |ins| :: PlainFeed(f, item, grace, ins[i])
  }

  /** The submissions of a run, in arrival order. */
  function ItemsIn<P>(item: Submission<P>, ins: seq<Stamped>): seq<W.Item<P>> {
    if ins == [] then []
    else match item(Last(ins))
      case Some(it) => ItemsIn(item, Front(ins)) + [it]
      case None => ItemsIn(item, Front(ins))
  }

  lemma {:induction false} PlainHistory<P>(f: (Timers, Stamped) -> seq<Op<P>>, item: Submission<P>, cfg: Config,
                                           t: Timers, ins: seq<Stamped>)
    requires PlainFeeds(f, item, cfg.grace, ins)
    ensures Plain(Project(f, cfg, t, ins)) && Submitted(Project(f, cfg, t, ins)) == ItemsIn(item, ins)
  {
    hide Submitted;
    if ins == [] {
      assert Submitted<P>([]) == [] by { NothingSubmitted<P>(); }
    } else {
      PlainHistory(f, item, cfg, t, Front(ins));
      assert ins[|ins| - 1] == Last(ins) && PlainFeed(f, item, cfg.grace, Last(ins));
      var ops, more := Project(f, cfg, t, Front(ins)), f(TimersAfter(cfg, t, Front(ins)), Last(ins));
      if more == [] {
        assert ops + more == ops;
      } else {
        assert more == [more[0]];
        SubmittedMore(ops, more[0]);
      }
    }
  }

  lemma NothingSubmitted<P>()
    ensures Submitted<P>([]) == []
  {
  }

  /** A run of one input that submits. */
  lemma OneInput<P>(f: (Timers, Stamped) -> seq<Op<P>>, item: Submission<P>, cfg: Config, t: Timers, at: Stamped,
                    op: Op<P>)
    requires op.Submit? && f(t, at) == [op] && item(at) == Some(W.Item(op.ts, op.payload))
    ensures Project(f, cfg, t, [at]) == [op] && Submitted([op]) == ItemsIn(item, [at])
  {
    assert Front([at]) == [] && Project(f, cfg, t, []) == [];
    assert Project(f, cfg, t, [at]) == [] + [op] == [op];
    SubmittedMore([], op);
    NothingSubmitted<P>();
  }

  /** The kernel clock at each operation of a projected run. */
  function Clock<O>(f: (Timers, Stamped) -> seq<O>, cfg: Config, t: Timers, ins: seq<Stamped>): (c: seq<int>)
    ensures |c| == |Project(f, cfg, t, ins)|
  {
    if ins == [] then []
    else Clock(f, cfg, t, Front(ins)) + seq(|f(TimersAfter(cfg, t, Front(ins)), Last(ins))|, _ => Last(ins).now)
  }

  /** A monotone clock, ordered timestamps, and delays within the grace period, for one metric of a run. */
  ghost predicate PunctualInputs<P>(item: Submission<P>, grace: int, ins: seq<Stamped>) {
    && (forall i, j | 0 <= i < j < |ins| :: ins[i].now <= ins[j].now)
    && (forall i, j | 0 <= i < j < |ins| && item(ins[i]).Some? && item(ins[j]).Some? ::
          item(ins[i]).value.ts <= item(ins[j]).value.ts)
    && (forall i | 0 <= i < |ins| && item(ins[i]).Some? :: item(ins[i]).value.ts >= ins[i].now - grace)
  }

  lemma {:induction false} PunctualHistory<P>(f: (Timers, Stamped) -> seq<Op<P>>, item: Submission<P>, cfg: Config,
                                              t: Timers, ins: seq<Stamped>, now: int, when: int)
    requires PlainFeeds(f, item, cfg.grace, ins) && PunctualInputs(item, cfg.grace, ins)
    requires forall i | 0 <= i < |ins| :: ins[i].now <= now && (item(ins[i]).Some? ==> item(ins[i]).value.ts <= when)
    ensures var clock, ops := Clock(f, cfg, t, ins), Project(f, cfg, t, ins);
            && Punctual(cfg.grace, clock, ops)
            && forall i | 0 <= i < |ops| :: clock[i] <= now && (ops[i].Submit? ==> ops[i].ts <= when)
  {
    hide Punctual, TimersAfter;
    if ins == [] {
      assert Punctual<P>(cfg.grace, [], []) by { PunctualNone<P>(cfg.grace); }
    } else {
      var before, last := Front(ins), Last(ins);
      assert forall i | 0 <= i < |before| :: before[i] == ins[i];
      assert ins[|ins| - 1] == last && PlainFeed(f, item, cfg.grace, last);
      PunctualHistory(f, item, cfg, t, before, last.now, if item(last).Some? then item(last).value.ts else when);
      var more := f(TimersAfter(cfg, t, before), last);
      var clock, ops := Clock(f, cfg, t, before), Project(f, cfg, t, before);
      if more == [] {
        assert Clock(f, cfg, t, ins) == clock && Project(f, cfg, t, ins) == ops;
      } else {
        assert more == [more[0]];
        PunctualExtend(cfg.grace, clock, ops, last.now, more[0]);
        assert Clock(f, cfg, t, ins) == clock + [last.now] && Project(f, cfg, t, ins) == ops + [more[0]];
      }
    }
  }

  lemma PunctualNone<P>(grace: int)
    ensures Punctual<P>(grace, [], [])
  {
  }

  lemma PunctualExtend<P>(grace: int, clock: seq<int>, ops: seq<Op<P>>, now: int, op: Op<P>)
    requires Punctual(grace, clock, ops) && !op.Forget?
    requires forall i | 0 <= i < |ops| :: clock[i] <= now && (ops[i].Submit? && op.Submit? ==> ops[i].ts <= op.ts)
    requires op.Submit? ==> InRange(op.ts) && op.ts >= now - grace
    requires op.Tick? ==> op.cutoff == now - grace
    ensures Punctual(grace, clock + [now], ops + [op])
  {
    var a, b := Timed(clock, ops), Timed(clock + [now], ops + [op]);
    assert b == a + [W.Timed(now, WinOp(op))];
    forall i, j | 0 <= i < j < |b| ensures b[i].now <= b[j].now {
      if j == |a| { assert b[i].now == clock[i]; }
    }
    forall i, j | 0 <= i < j < |b| && b[i].op.Submit? && b[j].op.Submit? ensures b[i].op.item.ts <= b[j].op.item.ts {
      if j == |a| { assert b[i].op == WinOp(ops[i]); }
    }
  }

  ghost function LatestNow(ins: seq<Stamped>): (now: int)
    ensures forall i | 0 <= i < |ins| :: ins[i].now <= now
  {
    if ins == [] then 0
    else
      assert forall i | 0 <= i < |ins| - 1 :: ins[i] == Front(ins)[i];
      var m := LatestNow(Front(ins));
      if m < Last(ins).now then Last(ins).now else m
  }

  ghost function LatestTs<P>(item: Submission<P>, ins: seq<Stamped>): (when: int)
    ensures forall i | 0 <= i < |ins| && item(ins[i]).Some? :: item(ins[i]).value.ts <= when
  {
    if ins == [] then 0
    else
      assert forall i | 0 <= i < |ins| - 1 :: ins[i] == Front(ins)[i];
      var m := LatestTs(item, Front(ins));
      if item(Last(ins)).Some? && m < item(Last(ins)).value.ts then item(Last(ins)).value.ts else m
  }

  lemma PunctualShare<P>(f: (Timers, Stamped) -> seq<Op<P>>, item: Submission<P>, cfg: Config, t: Timers,
                         ins: seq<Stamped>)
    requires PlainFeeds(f, item, cfg.grace, ins) && PunctualInputs(item, cfg.grace, ins)
    ensures Punctual(cfg.grace, Clock(f, cfg, t, ins), Project(f, cfg, t, ins))
  {
    hide Punctual, PlainFeeds, PunctualInputs;
    PunctualHistory(f, item, cfg, t, ins, LatestNow(ins), LatestTs(item, ins));
  }

  /** The share of one metric in a punctual run that ends in a tick. */
  lemma PunctualTick<P>(f: (Timers, Stamped) -> seq<Op<P>>, item: Submission<P>, cfg: Config, t: Timers,
                        ins: seq<Stamped>, now: int)
    requires var all := ins + [At(now, Tock)];
             PlainFeeds(f, item, cfg.grace, all) && PunctualInputs(item, cfg.grace, all)
    requires f(TimersAfter(cfg, t, ins), At(now, Tock)) == [Op.Tick(now - cfg.grace)]
    ensures var clock, ops := Clock(f, cfg, t, ins), Project(f, cfg, t, ins);
            && Punctual(cfg.grace, clock + [now], ops + [Op.Tick(now - cfg.grace)])
            && Project(f, cfg, t, ins + [At(now, Tock)]) == ops + [Op.Tick(now - cfg.grace)]
            && Submitted(ops) == ItemsIn(item, ins)
  {
    hide Punctual, PunctualInputs, Submitted;
    var all := ins + [At(now, Tock)];
    assert Front(all) == ins && Last(all) == At(now, Tock);
    PunctualShare(f, item, cfg, t, all);
    assert Clock(f, cfg, t, all) == Clock(f, cfg, t, ins) + [now];
    assert forall i | 0 <= i < |ins| :: ins[i] == all[i];
    PlainHistory(f, item, cfg, t, ins);
  }

  // ---------------------------------------------------------------- counters

  function CounterItem(name: string): Submission<i32> {
    (at: Stamped) =>
      if at.input.CounterPdu? && at.input.cname == name && name != "" then Some(W.Item(at.input.cts, at.input.incr))
      else None
  }

  /** The counter is submitted with usable timestamps and never forgotten. */
  ghost predicate CounterInputs(ins: seq<Stamped>, name: string) {
    forall i | 0 <= i < |ins| ::
      && (CounterItem(name)(ins[i]).Some? ==> InRange(CounterItem(name)(ins[i]).value.ts))
      && !Forgets(ins[i].input, PAYLOAD_COUNTER, name)
  }

  lemma CounterFeedPlain(cfg: Config, ins: seq<Stamped>, name: string)
    requires CounterInputs(ins, name)
    ensures PlainFeeds(CounterShare(cfg, name), CounterItem(name), cfg.grace, ins)
  {
  }

  /**
   Exactly-once windows over a whole kernel run: a punctual counter broadcasts the batch group-by of its
   submissions.
   */
  lemma CountersExactlyOnce(cfg: Config, ins: seq<Stamped>, k: Db, k': Db, name: string, window: pos)
    requires Ran(cfg, ins, k, k')
    requires C.FindCounter(cfg.counterRules, name, Lookup(k.counters, name)) == Some(C.FreshCounter(window))
    requires CounterInputs(ins, name) && PunctualInputs(CounterItem(name), cfg.grace, ins)
    ensures var batch := Render(C.CounterCasts(name, window), W.GroupBy(window, ItemsIn(CounterItem(name), ins)));
            && Since(k, k', AboutCounter(name)) + C.PendingCast(name, Lookup(k'.counters, name)) == batch
            && LabelsIncrease(batch)
    ensures var casts := Since(k, k', AboutCounter(name)) + C.PendingCast(name, Lookup(k'.counters, name));
            var groups := W.GroupBy(window, ItemsIn(CounterItem(name), ins));
            |casts| == |groups| && forall i | 0 <= i < |groups| :: C.CounterTells(name, window, casts[i], groups[i])
  {
    hide Punctual, W.GroupBy, C.CounterRun, LabelsIncrease, C.PendingCast, C.CounterTells;
    hide CounterInputs, PlainFeeds, PunctualInputs, Ran, Since;
    var f, ops := CounterShare(cfg, name), CounterHistory(cfg, k.timers, ins)(name);
    CounterFeedPlain(cfg, ins, name);
    PlainHistory(f, CounterItem(name), cfg, k.timers, ins);
    PunctualShare(f, CounterItem(name), cfg, k.timers, ins);
    C.CounterExactlyOnce(cfg.counterRules, name, Lookup(k.counters, name), window, cfg.grace,
                         Clock(f, cfg, k.timers, ins), ops);
    CounterStream(cfg, ins, k, k', name);
  }

  /**
   Windows on time over a whole kernel run: right after a due tick at `now`, a punctual counter has broadcast its
   submissions, one window each and in order, up to the last window that ended more than the grace period ago or
   was followed by another.
   */
  lemma CountersOnTime(cfg: Config, ins: seq<Stamped>, k: Db, k': Db, now: int, name: string, window: pos)
    requires Ran(cfg, ins + [At(now, Tock)], k, k')
    requires TimersAfter(cfg, k.timers, ins).tick + cfg.tickInterval < now
    requires C.FindCounter(cfg.counterRules, name, Lookup(k.counters, name)) == Some(C.FreshCounter(window))
    requires var all := ins + [At(now, Tock)];
             CounterInputs(all, name) && PunctualInputs(CounterItem(name), cfg.grace, all)
    ensures var casts := Since(k, k', AboutCounter(name));
            var due := W.Ended(window, W.GroupBy(window, ItemsIn(CounterItem(name), ins)), now - cfg.grace);
            |casts| == |due| && forall i | 0 <= i < |due| :: C.CounterTells(name, window, casts[i], due[i])
  {
    hide Punctual, W.GroupBy, W.Ended, C.CounterRun, C.CounterTells;
    hide CounterInputs, PlainFeeds, PunctualInputs, Ran, Since;
    var f, all := CounterShare(cfg, name), ins + [At(now, Tock)];
    CounterFeedPlain(cfg, all, name);
    PunctualTick(f, CounterItem(name), cfg, k.timers, ins, now);
    C.CounterOnTime(cfg.counterRules, name, Lookup(k.counters, name), window, cfg.grace,
                 Clock(f, cfg, k.timers, ins), Project(f, cfg, k.timers, ins), now);
    CounterStream(cfg, all, k, k', name);
  }

  /** Broadcasts of a window and the pending value add up, modulo 2^64, to what was submitted for it. */
  ghost predicate CounterAccounted(ins: seq<Stamped>, k: Db, k': Db, name: string, window: pos, start: int) {
    Add64(C.BroadcastTotal(Since(k, k', AboutCounter(name)), start), C.PendingTotal(Lookup(k'.counters, name), start))
    == C.Total(W.InWindow(window, ItemsIn(CounterItem(name), ins), start))
  }

  /** Conservation over a whole kernel run, in any arrival order: see `Counters.CounterConservation`. */
  lemma CountersConserved(cfg: Config, ins: seq<Stamped>, k: Db, k': Db, name: string, window: pos, start: int)
    requires Ran(cfg, ins, k, k')
    requires C.FindCounter(cfg.counterRules, name, Lookup(k.counters, name)) == Some(C.FreshCounter(window))
    requires CounterInputs(ins, name)
    ensures CounterAccounted(ins, k, k', name, window, start)
  {
    hide C.CounterRun, C.Total, C.BroadcastTotal, C.PendingTotal, Add64, PlainFeeds, Ran, Since;
    var ops := CounterHistory(cfg, k.timers, ins)(name);
    CounterFeedPlain(cfg, ins, name);
    PlainHistory(CounterShare(cfg, name), CounterItem(name), cfg, k.timers, ins);
    C.CounterConservation(cfg.counterRules, name, Lookup(k.counters, name), window, ops, start);
    CounterStream(cfg, ins, k, k', name);
  }

  /** The bound on timestamps is exact: see `Counters.OneCountedIff`. */
  lemma OneCounterPduIff(cfg: Config, now: int, ts: u32, name: string, a: i32, k: Db, k': Db, window: pos)
    requires name != "" && window < 0x8000_0000 && Ran(cfg, [At(now, CounterPdu(ts, name, a))], k, k')
    requires C.FindCounter(cfg.counterRules, name, Lookup(k.counters, name)) == Some(C.FreshCounter(window))
    ensures CounterAccounted([At(now, CounterPdu(ts, name, a))], k, k', name, window, W.WinStart(window, ts))
            <==> a == 0 || InRange(ts) || Aligned(window, ts)
  {
    hide C.CounterRun, C.Total, C.BroadcastTotal, C.PendingTotal, Add64, W.WinStart, W.InWindow, Ran, Since;
    var at := At(now, CounterPdu(ts, name, a));
    OneInput(CounterShare(cfg, name), CounterItem(name), cfg, k.timers, at, Op.Submit(ts, a));
    C.OneCountedIff(cfg.counterRules, name, Lookup(k.counters, name), window, ts, a);
    CounterStream(cfg, [at], k, k', name);
  }

  // ---------------------------------------------------------------- samples

  function SampleItem(name: string): Submission<X.Values> {
    (at: Stamped) =>
      if at.input.SamplePdu? && at.input.xname == name && name != "" then Some(W.Item(at.input.xts, at.input.values))
      else None
  }

  /** The sample set is submitted with usable timestamps and never forgotten. */
  ghost predicate SampleInputs(ins: seq<Stamped>, name: string) {
    forall i | 0 <= i < |ins| ::
      && (SampleItem(name)(ins[i]).Some? ==> InRange(SampleItem(name)(ins[i]).value.ts))
      && !Forgets(ins[i].input, PAYLOAD_SAMPLE, name)
  }

  lemma SampleFeedPlain(cfg: Config, ins: seq<Stamped>, name: string)
    requires SampleInputs(ins, name)
    ensures PlainFeeds(SampleShare(cfg, name), SampleItem(name), cfg.grace, ins)
  {
  }

  /**
   Exactly-once windows over a whole kernel run: a punctual sample set broadcasts the batch group-by of its
   submissions.
   */
  lemma SamplesExactlyOnce(cfg: Config, ins: seq<Stamped>, k: Db, k': Db, name: string, window: pos)
    requires Ran(cfg, ins, k, k')
    requires X.FindSample(cfg.sampleRules, name, Lookup(k.samples, name)) == Some(X.FreshSample(window))
    requires SampleInputs(ins, name) && PunctualInputs(SampleItem(name), cfg.grace, ins)
    ensures var batch := Render(X.SampleCasts(name, window), W.GroupBy(window, ItemsIn(SampleItem(name), ins)));
            && Since(k, k', AboutSample(name)) + X.PendingCast(name, Lookup(k'.samples, name)) == batch
            && LabelsIncrease(batch)
    ensures var casts := Since(k, k', AboutSample(name)) + X.PendingCast(name, Lookup(k'.samples, name));
            var groups := W.GroupBy(window, ItemsIn(SampleItem(name), ins));
            |casts| == |groups| && forall i | 0 <= i < |groups| :: X.SampleTells(name, window, casts[i], groups[i])
  {
    hide Punctual, W.GroupBy, X.SampleRun, LabelsIncrease, X.PendingCast, X.SampleTells;
    hide SampleInputs, PlainFeeds, PunctualInputs, Ran, Since;
    var f, ops := SampleShare(cfg, name), SampleHistory(cfg, k.timers, ins)(name);
    SampleFeedPlain(cfg, ins, name);
    PlainHistory(f, SampleItem(name), cfg, k.timers, ins);
    PunctualShare(f, SampleItem(name), cfg, k.timers, ins);
    X.SampleExactlyOnce(cfg.sampleRules, name, Lookup(k.samples, name), window, cfg.grace, Clock(f, cfg, k.timers, ins),
                        ops);
    SampleStream(cfg, ins, k, k', name);
  }

  /**
   Windows on time over a whole kernel run: right after a due tick at `now`, a punctual sample set has broadcast its
   submissions, one window each and in order, up to the last window that ended more than the grace period ago or
   was followed by another.
   */
  lemma SamplesOnTime(cfg: Config, ins: seq<Stamped>, k: Db, k': Db, now: int, name: string, window: pos)
    requires Ran(cfg, ins + [At(now, Tock)], k, k')
    requires TimersAfter(cfg, k.timers, ins).tick + cfg.tickInterval < now
    requires X.FindSample(cfg.sampleRules, name, Lookup(k.samples, name)) == Some(X.FreshSample(window))
    requires var all := ins + [At(now, Tock)];
             SampleInputs(all, name) && PunctualInputs(SampleItem(name), cfg.grace, all)
    ensures var casts := Since(k, k', AboutSample(name));
            var due := W.Ended(window, W.GroupBy(window, ItemsIn(SampleItem(name), ins)), now - cfg.grace);
            |casts| == |due| && forall i | 0 <= i < |due| :: X.SampleTells(name, window, casts[i], due[i])
  {
    hide Punctual, W.GroupBy, W.Ended, X.SampleRun, X.SampleTells;
    hide SampleInputs, PlainFeeds, PunctualInputs, Ran, Since;
    var f, all := SampleShare(cfg, name), ins + [At(now, Tock)];
    SampleFeedPlain(cfg, all, name);
    PunctualTick(f, SampleItem(name), cfg, k.timers, ins, now);
    X.SampleOnTime(cfg.sampleRules, name, Lookup(k.samples, name), window, cfg.grace,
                 Clock(f, cfg, k.timers, ins), Project(f, cfg, k.timers, ins), now);
    SampleStream(cfg, all, k, k', name);
  }

  /** Counts and sums of a window's broadcasts and of the pending set add up to the values submitted for it. */
  ghost predicate SampleAccounted(ins: seq<Stamped>, k: Db, k': Db, name: string, window: pos, start: int) {
    var (n, sum) := X.BroadcastSums(Since(k, k', AboutSample(name)), start);
    var (n', sum') := X.PendingSums(Lookup(k'.samples, name), start);
    var vs := X.AllValues(W.InWindow(window, ItemsIn(SampleItem(name), ins), start));
    Low32(n + n') == Low32(|vs|) && sum + sum' == Stats.Sum(vs)
  }

  /** Conservation over a whole kernel run, in any arrival order: see `Samples.SampleConservation`. */
  lemma SamplesConserved(cfg: Config, ins: seq<Stamped>, k: Db, k': Db, name: string, window: pos, start: int)
    requires Ran(cfg, ins, k, k')
    requires X.FindSample(cfg.sampleRules, name, Lookup(k.samples, name)) == Some(X.FreshSample(window))
    requires SampleInputs(ins, name)
    ensures SampleAccounted(ins, k, k', name, window, start)
  {
    hide X.SampleRun, X.AllValues, X.BroadcastSums, X.PendingSums, Stats.SumOf, PlainFeeds, Ran, Since;
    var ops := SampleHistory(cfg, k.timers, ins)(name);
    SampleFeedPlain(cfg, ins, name);
    PlainHistory(SampleShare(cfg, name), SampleItem(name), cfg, k.timers, ins);
    X.SampleConservation(cfg.sampleRules, name, Lookup(k.samples, name), window, ops, start);
    SampleStream(cfg, ins, k, k', name);
  }

  /** The bound on timestamps is exact: see `Samples.OneSampledIff`. */
  lemma OneSamplePduIff(cfg: Config, now: int, ts: u32, name: string, vs: X.Values, k: Db, k': Db, window: pos)
    requires name != "" && window < 0x8000_0000 && Ran(cfg, [At(now, SamplePdu(ts, name, vs))], k, k')
    requires X.FindSample(cfg.sampleRules, name, Lookup(k.samples, name)) == Some(X.FreshSample(window))
    ensures SampleAccounted([At(now, SamplePdu(ts, name, vs))], k, k', name, window, W.WinStart(window, ts))
            <==> X.Unnoticed(vs) || InRange(ts) || Aligned(window, ts)
  {
    hide X.SampleRun, X.AllValues, X.BroadcastSums, X.PendingSums, Stats.SumOf, W.WinStart, W.InWindow, Ran, Since;
    var at := At(now, SamplePdu(ts, name, vs));
    OneInput(SampleShare(cfg, name), SampleItem(name), cfg, k.timers, at, Op.Submit(ts, vs));
    X.OneSampledIff(cfg.sampleRules, name, Lookup(k.samples, name), window, ts, vs);
    SampleStream(cfg, [at], k, k', name);
  }

  /** The values themselves are accounted for over a whole kernel run: see `Samples.SampleValuesConserved`. */
  lemma SampleValuesConserved(cfg: Config, ins: seq<Stamped>, k: Db, k': Db, name: string, window: pos, start: int)
    returns (groups: seq<seq<real>>)
    requires Ran(cfg, ins, k, k')
    requires X.FindSample(cfg.sampleRules, name, Lookup(k.samples, name)) == Some(X.FreshSample(window))
    requires SampleInputs(ins, name)
    ensures var casts := Since(k, k', AboutSample(name)) + X.PendingCast(name, Lookup(k'.samples, name));
            X.Accounts(X.CastsAt(casts, start), groups,
                       X.AllValues(W.InWindow(window, ItemsIn(SampleItem(name), ins), start)))
  {
    hide X.SampleRun, X.AllValues, X.CastsAt, X.Accounts, X.PendingCast, PlainFeeds, Ran, Since;
    var ops := SampleHistory(cfg, k.timers, ins)(name);
    SampleFeedPlain(cfg, ins, name);
    PlainHistory(SampleShare(cfg, name), SampleItem(name), cfg, k.timers, ins);
    groups := X.SampleValuesConserved(cfg.sampleRules, name, Lookup(k.samples, name), window, ops, start);
    SampleStream(cfg, ins, k, k', name);
  }

  // ---------------------------------------------------------------- rates

  function RateItem(name: string): Submission<u64> {
    (at: Stamped) =>
      if at.input.RatePdu? && at.input.rname == name && name != "" then Some(W.Item(at.input.rts, at.input.reading))
      else None
  }

  /** The rate is submitted with usable timestamps and never forgotten. */
  ghost predicate RateInputs(ins: seq<Stamped>, name: string) {
    forall i | 0 <= i < |ins| ::
      && (RateItem(name)(ins[i]).Some? ==> InRange(RateItem(name)(ins[i]).value.ts))
      && !Forgets(ins[i].input, PAYLOAD_RATE, name)
  }

  lemma RateFeedPlain(cfg: Config, ins: seq<Stamped>, name: string)
    requires RateInputs(ins, name)
    ensures PlainFeeds(RateShare(cfg, name), RateItem(name), cfg.grace, ins)
  {
  }

  /** Exactly-once windows over a whole kernel run: a punctual rate broadcasts the batch group-by of its submissions. */
  lemma RatesExactlyOnce(cfg: Config, ins: seq<Stamped>, k: Db, k': Db, name: string, window: pos)
    requires Ran(cfg, ins, k, k')
    requires R.FindRate(cfg.rateRules, name, Lookup(k.rates, name)) == Some(R.FreshRate(window))
    requires RateInputs(ins, name) && PunctualInputs(RateItem(name), cfg.grace, ins)
    ensures var batch := Render(R.RateCasts(name, window), W.GroupBy(window, ItemsIn(RateItem(name), ins)));
            && Since(k, k', AboutRate(name)) + R.PendingCast(name, Lookup(k'.rates, name)) == batch
            && LabelsIncrease(batch)
    ensures var casts := Since(k, k', AboutRate(name)) + R.PendingCast(name, Lookup(k'.rates, name));
            var groups := W.GroupBy(window, ItemsIn(RateItem(name), ins));
            |casts| == |groups| && forall i | 0 <= i < |groups| :: R.RateTells(name, window, casts[i], groups[i])
  {
    hide Punctual, W.GroupBy, R.RateRun, LabelsIncrease, R.PendingCast, R.RateTells;
    hide RateInputs, PlainFeeds, PunctualInputs, Ran, Since;
    var f, ops := RateShare(cfg, name), RateHistory(cfg, k.timers, ins)(name);
    RateFeedPlain(cfg, ins, name);
    PlainHistory(f, RateItem(name), cfg, k.timers, ins);
    PunctualShare(f, RateItem(name), cfg, k.timers, ins);
    R.RateExactlyOnce(cfg.rateRules, name, Lookup(k.rates, name), window, cfg.grace, Clock(f, cfg, k.timers, ins), ops);
    RateStream(cfg, ins, k, k', name);
  }

  /**
   Windows on time over a whole kernel run: right after a due tick at `now`, a punctual rate has broadcast its
   readings, one window each and in order, up to the last window that ended more than the grace period ago or
   was followed by another.
   */
  lemma RatesOnTime(cfg: Config, ins: seq<Stamped>, k: Db, k': Db, now: int, name: string, window: pos)
    requires Ran(cfg, ins + [At(now, Tock)], k, k')
    requires TimersAfter(cfg, k.timers, ins).tick + cfg.tickInterval < now
    requires R.FindRate(cfg.rateRules, name, Lookup(k.rates, name)) == Some(R.FreshRate(window))
    requires var all := ins + [At(now, Tock)]; RateInputs(all, name) && PunctualInputs(RateItem(name), cfg.grace, all)
    ensures var casts := Since(k, k', AboutRate(name));
            var due := W.Ended(window, W.GroupBy(window, ItemsIn(RateItem(name), ins)), now - cfg.grace);
            |casts| == |due| && forall i | 0 <= i < |due| :: R.RateTells(name, window, casts[i], due[i])
  {
    hide Punctual, W.GroupBy, W.Ended, R.RateRun, R.RateTells;
    hide RateInputs, PlainFeeds, PunctualInputs, Ran, Since;
    var f, all := RateShare(cfg, name), ins + [At(now, Tock)];
    RateFeedPlain(cfg, all, name);
    PunctualTick(f, RateItem(name), cfg, k.timers, ins, now);
    R.RateOnTime(cfg.rateRules, name, Lookup(k.rates, name), window, cfg.grace,
                 Clock(f, cfg, k.timers, ins), Project(f, cfg, k.timers, ins), now);
    RateStream(cfg, all, k, k', name);
  }

  // ---------------------------------------------------------------- states

  ghost predicate NeverForgets(ins: seq<Stamped>, kind: bv16, name: string) {
    forall i | 0 <= i < |ins| :: !Forgets(ins[i].input, kind, name)
  }

  /** TRANSITIONs alone always tell the current staleness and status of a state that is not forgotten. */
  lemma TransitionsTrackStates(cfg: Config, ins: seq<Stamped>, k: Db, k': Db, name: string)
    requires Ran(cfg, ins, k, k') && Condition(Lookup(k.states, name)) == (false, PENDING)
    requires NeverForgets(ins, PAYLOAD_STATE, name)
    ensures var (stale, status) := Condition(Lookup(k'.states, name));
            Replay(Since(k, k', AboutState(name))) == (stale, StatStr(status))
  {
    hide StateRun, Ran, Since, Replay;
    var ops := StateHistory(cfg, k.timers, ins)(name);
    HistoryOrigin(StateShare(cfg, name), cfg, k.timers, ins, (op: StateOp) => !op.Drop?);
    assert forall i | 0 <= i < |ops| :: ops[i] in ops;
    TransitionsSuffice(cfg.stateRules, name, Lookup(k.states, name), ops);
    StateStream(cfg, ins, k, k', name);
  }

  /** In the stream of any run, a STATE that says OK follows a record of that name that already said OK. */
  lemma OkIsAnnounced(cfg: Config, ins: seq<Stamped>, k: Db, k': Db, name: string)
    requires Ran(cfg, ins, k, k')
    ensures OkAnnounced(Since(k, k', AboutState(name)))
  {
    hide StateRun, Ran, Since;
    StateStream(cfg, ins, k, k', name);
    ReturnToOkIsAnnounced(cfg.stateRules, name, Lookup(k.states, name), StateHistory(cfg, k.timers, ins)(name));
  }

  /**
   After a run that ends in a freshness pass at `now`, no state that is not ignored has expired, and
   one that is fresh and has been updated was seen less than one freshness interval ago.
   */
  lemma NothingExpiredAfterPass(cfg: Config, ins: seq<Stamped>, k: Db, k': Db, now: int, name: string)
    requires Ran(cfg, ins + [At(now, Tock)], k, k') && now < 0x8000_0000
    requires Due(TimersAfter(cfg, k.timers, ins).freshness, cfg.freshnessInterval, now)
    requires Dated(Lookup(k.states, name))
    ensures var s := Lookup(k'.states, name);
            s.Some? && !s.value.ignore && s.value.typ.freshness > 0 ==>
              && s.value.expiry > now
              && (!s.value.stale && s.value.lastSeen != 0 ==> s.value.lastSeen + s.value.typ.freshness > now)
  {
    hide StateRun, Ran, Since, Dated;
    var all := ins + [At(now, Tock)];
    assert Front(all) == ins && Last(all) == At(now, Tock);
    FreshnessPass(cfg.stateRules, name, Lookup(k.states, name), StateHistory(cfg, k.timers, ins)(name), now);
    StateStream(cfg, all, k, k', name);
  }

  /**
   A state that hears nothing in a run, whatever else happens in it, is marked in one TRANSITION if a
   freshness pass finds it expired and not yet marked, and in none otherwise.
   */
  lemma SilentStateIsMarkedOnce(cfg: Config, ins: seq<Stamped>, k: Db, k': Db, name: string)
    requires Ran(cfg, ins, k, k') && name in k.states && !k.states[name].ignore
    requires NeverForgets(ins, PAYLOAD_STATE, name)
    requires forall i | 0 <= i < |ins| :: ins[i].input.StatePdu? ==> ins[i].input.sname != name
    ensures var s, s' := k.states[name], Lookup(k'.states, name);
            var expired := exists now :: Check(now) in StateHistory(cfg, k.timers, ins)(name) && s.expiry <= now;
            var marked := s.stale && s.status == s.typ.status;
            && |Transitions(Since(k, k', AboutState(name)))| == (if expired && !marked then 1 else 0)
            && s'.Some? && (if expired then s'.value.stale && s'.value.status == s.typ.status else s' == Some(s))
  {
    hide StateRun, Ran, Since, Transitions;
    var s, ops := k.states[name], StateHistory(cfg, k.timers, ins)(name);
    HistoryOrigin(StateShare(cfg, name), cfg, k.timers, ins, (op: StateOp) => op.Check?);
    assert forall i | 0 <= i < |ops| :: ops[i] in ops;
    SilentStateGoesStaleOnce(cfg.stateRules, name, s, ops);
    StateStream(cfg, ins, k, k', name);
    if now :| Check(now) in ops && s.expiry <= now {
      var i :| 0 <= i < |ops| && ops[i] == Check(now);
      assert s.expiry <= ops[i].now;
    }
    forall i | 0 <= i < |ops| && s.expiry <= ops[i].now ensures Check(ops[i].now) in ops && s.expiry <= ops[i].now {
    }
  }

  // ---------------------------------------------------------------- FORGET

  ghost function Without<V>(m: map<string, V>, gone: string -> bool): map<string, V> {
    map n | n in m && !gone(n) :: m[n]
  }

  lemma ForgetOne<S, O>(machine: string -> Machine<S, O>, mk: string -> Topic,
                        feed: string -> seq<O>, was: map<string, S>, log: seq<Broadcast>,
                        will: map<string, S>, log': seq<Broadcast>, gone: bool, drop: O, n: string)
    requires Moved(machine, mk, feed, was, log, will, log')
    requires feed(n) == (if gone then [drop] else []) && machine(n)(Lookup(was, n), drop) == (None, [])
    ensures Lookup(will, n) == if gone then None else Lookup(was, n)
    ensures About(log', mk(n)) == About(log, mk(n))
  {
    hide About;
    RunOne(machine(n), Lookup(was, n), drop);
    var (_, out) := RunOf(machine(n), Lookup(was, n), feed(n));
    assert About(log', mk(n)) == About(log, mk(n)) + out;
  }

  lemma TableForgotten<S, O>(machine: string -> Machine<S, O>, mk: string -> Topic,
                             feed: string -> seq<O>, was: map<string, S>, log: seq<Broadcast>,
                             will: map<string, S>, log': seq<Broadcast>, gone: string -> bool, drop: O)
    requires Moved(machine, mk, feed, was, log, will, log')
    requires forall n :: feed(n) == (if gone(n) then [drop] else []) && machine(n)(Lookup(was, n), drop) == (None, [])
    ensures will == Without(was, gone) && forall n :: About(log', mk(n)) == About(log, mk(n))
  {
    hide Moved, About;
    forall n
      ensures Lookup(will, n) == Lookup(Without(was, gone), n) && About(log', mk(n)) == About(log, mk(n))
    {
      ForgetOne(machine, mk, feed, was, log, will, log', gone(n), drop, n);
    }
    MapsAgree(will, Without(was, gone));
  }

  lemma MapsAgree<V>(a: map<string, V>, b: map<string, V>)
    requires forall n :: Lookup(a, n) == Lookup(b, n)
    ensures a == b
  {
    forall n ensures n in a <==> n in b {
      assert Lookup(a, n) == Lookup(b, n);
    }
    forall n | n in a ensures a[n] == b[n] {
      assert Lookup(a, n) == Lookup(b, n);
    }
  }

  /** Without ignore, FORGET removes exactly the matching names of the selected kinds and broadcasts nothing. */
  lemma ForgetRemovesExactly(cfg: Config, now: int, payload: bv16, matches: string -> bool, k: Db, k': Db)
    requires Reacts(cfg, At(now, ForgetPdu(payload, Some(matches), false)), k, k')
    ensures k'.states == Without(k.states, n => payload & PAYLOAD_STATE != 0 && matches(n))
    ensures k'.counters == Without(k.counters, n => payload & PAYLOAD_COUNTER != 0 && matches(n))
    ensures k'.samples == Without(k.samples, n => payload & PAYLOAD_SAMPLE != 0 && matches(n))
    ensures k'.rates == Without(k.rates, n => payload & PAYLOAD_RATE != 0 && matches(n))
    ensures forall topic: Topic | !topic.AboutEvent? && !topic.AboutKeys? :: About(k'.log, topic) == About(k.log, topic)
  {
    hide About, Reacts, Without;
    StatesForgotten(cfg, now, payload, matches, k, k');
    CountersForgotten(cfg, now, payload, matches, k, k');
    SamplesForgotten(cfg, now, payload, matches, k, k');
    RatesForgotten(cfg, now, payload, matches, k, k');
    forall topic: Topic | !topic.AboutEvent? && !topic.AboutKeys? ensures About(k'.log, topic) == About(k.log, topic) {
      assert topic.AboutState? || topic.AboutCounter? || topic.AboutSample? || topic.AboutRate?;
    }
  }

  lemma StatesForgotten(cfg: Config, now: int, payload: bv16, matches: string -> bool, k: Db, k': Db)
    requires Reacts(cfg, At(now, ForgetPdu(payload, Some(matches), false)), k, k')
    ensures k'.states == Without(k.states, n => payload & PAYLOAD_STATE != 0 && matches(n))
    ensures forall n :: About(k'.log, AboutState(n)) == About(k.log, AboutState(n))
  {
    hide About, Moved, Without;
    var at := At(now, ForgetPdu(payload, Some(matches), false));
    TableForgotten(StateMachines(cfg), StateTopic(), StateFeed(cfg, k.timers, at), k.states, k.log, k'.states, k'.log,
                   n => payload & PAYLOAD_STATE != 0 && matches(n), Drop(false));
    assert forall n :: StateTopic()(n) == AboutState(n);
  }

  lemma CountersForgotten(cfg: Config, now: int, payload: bv16, matches: string -> bool, k: Db, k': Db)
    requires Reacts(cfg, At(now, ForgetPdu(payload, Some(matches), false)), k, k')
    ensures k'.counters == Without(k.counters, n => payload & PAYLOAD_COUNTER != 0 && matches(n))
    ensures forall n :: About(k'.log, AboutCounter(n)) == About(k.log, AboutCounter(n))
  {
    hide About, Moved, Without;
    var at := At(now, ForgetPdu(payload, Some(matches), false));
    TableForgotten(CounterMachines(cfg), CounterTopic(), CounterFeed(cfg, k.timers, at),
                   k.counters, k.log, k'.counters, k'.log,
                   n => payload & PAYLOAD_COUNTER != 0 && matches(n), Op.Forget(false));
    assert forall n :: CounterTopic()(n) == AboutCounter(n);
  }

  lemma SamplesForgotten(cfg: Config, now: int, payload: bv16, matches: string -> bool, k: Db, k': Db)
    requires Reacts(cfg, At(now, ForgetPdu(payload, Some(matches), false)), k, k')
    ensures k'.samples == Without(k.samples, n => payload & PAYLOAD_SAMPLE != 0 && matches(n))
    ensures forall n :: About(k'.log, AboutSample(n)) == About(k.log, AboutSample(n))
  {
    hide About, Moved, Without;
    var at := At(now, ForgetPdu(payload, Some(matches), false));
    TableForgotten(SampleMachines(cfg), SampleTopic(), SampleFeed(cfg, k.timers, at),
                   k.samples, k.log, k'.samples, k'.log,
                   n => payload & PAYLOAD_SAMPLE != 0 && matches(n), Op.Forget(false));
    assert forall n :: SampleTopic()(n) == AboutSample(n);
  }

  lemma RatesForgotten(cfg: Config, now: int, payload: bv16, matches: string -> bool, k: Db, k': Db)
    requires Reacts(cfg, At(now, ForgetPdu(payload, Some(matches), false)), k, k')
    ensures k'.rates == Without(k.rates, n => payload & PAYLOAD_RATE != 0 && matches(n))
    ensures forall n :: About(k'.log, AboutRate(n)) == About(k.log, AboutRate(n))
  {
    hide About, Moved, Without;
    var at := At(now, ForgetPdu(payload, Some(matches), false));
    TableForgotten(RateMachines(cfg), RateTopic(), RateFeed(cfg, k.timers, at), k.rates, k.log, k'.rates, k'.log,
                   n => payload & PAYLOAD_RATE != 0 && matches(n), Op.Forget(false));
    assert forall n :: RateTopic()(n) == AboutRate(n);
  }

  /** The share of a name in a run that forgets it in the middle. */
  lemma ShareAround<O>(f: (Timers, Stamped) -> seq<O>, cfg: Config, t: Timers, before: seq<Stamped>, at: Stamped,
                       after: seq<Stamped>, drop: O)
    requires f(TimersAfter(cfg, t, before), at) == [drop]
    ensures Project(f, cfg, t, before + [at] + after)
            == Project(f, cfg, t, before) + [drop] + Project(f, cfg, TimersAfter(cfg, t, before + [at]), after)
  {
    ProjectConcat(f, cfg, t, before + [at], after);
    assert Front(before + [at]) == before && Last(before + [at]) == at;
  }

  /** After a FORGET that removes the state, a run goes on as for a name never heard of. */
  lemma StateStartsOver(cfg: Config, before: seq<Stamped>, at: Stamped, after: seq<Stamped>, k: Db, k': Db,
                        name: string)
    requires Ran(cfg, before + [at] + after, k, k') && Forgets(at.input, PAYLOAD_STATE, name) && !at.input.ignore
    ensures var t := TimersAfter(cfg, k.timers, before + [at]);
            var (_, out1) := StateRun(cfg.stateRules, name, Lookup(k.states, name),
                                      StateHistory(cfg, k.timers, before)(name));
            var (s, out2) := StateRun(cfg.stateRules, name, None, StateHistory(cfg, t, after)(name));
            Lookup(k'.states, name) == s && Since(k, k', AboutState(name)) == out1 + out2
  {
    hide StateRun, Ran, Since, Project, TimersAfter;
    StateStream(cfg, before + [at] + after, k, k', name);
    ShareAround(StateShare(cfg, name), cfg, k.timers, before, at, after, Drop(false));
    StateForgotten(cfg.stateRules, name, Lookup(k.states, name), StateHistory(cfg, k.timers, before)(name),
                    StateHistory(cfg, TimersAfter(cfg, k.timers, before + [at]), after)(name));
  }

  /** An ignored state neither changes nor broadcasts in any run, until a non-ignoring FORGET that matches it. */
  lemma IgnoredStateIsFrozen(cfg: Config, ins: seq<Stamped>, k: Db, k': Db, name: string)
    requires Ran(cfg, ins, k, k') && name in k.states && k.states[name].ignore
    requires forall i | 0 <= i < |ins| :: Forgets(ins[i].input, PAYLOAD_STATE, name) ==> ins[i].input.ignore
    ensures Lookup(k'.states, name) == Some(k.states[name]) && Since(k, k', AboutState(name)) == []
  {
    hide StateRun, Ran, Since;
    var ops := StateHistory(cfg, k.timers, ins)(name);
    HistoryOrigin(StateShare(cfg, name), cfg, k.timers, ins, (op: StateOp) => op != Drop(false));
    assert forall i | 0 <= i < |ops| :: ops[i] in ops;
    StateIgnored(cfg.stateRules, name, k.states[name], ops);
    StateStream(cfg, ins, k, k', name);
  }

  /** After a FORGET that removes the counter, a run goes on as for a name never heard of. */
  lemma CounterStartsOver(cfg: Config, before: seq<Stamped>, at: Stamped, after: seq<Stamped>, k: Db, k': Db,
                          name: string)
    requires Ran(cfg, before + [at] + after, k, k') && Forgets(at.input, PAYLOAD_COUNTER, name) && !at.input.ignore
    ensures var t := TimersAfter(cfg, k.timers, before + [at]);
            var (_, out1) := C.CounterRun(cfg.counterRules, name, Lookup(k.counters, name),
                                          CounterHistory(cfg, k.timers, before)(name));
            var (s, out2) := C.CounterRun(cfg.counterRules, name, None, CounterHistory(cfg, t, after)(name));
            Lookup(k'.counters, name) == s && Since(k, k', AboutCounter(name)) == out1 + out2
  {
    hide C.CounterRun, Ran, Since, Project, TimersAfter;
    CounterStream(cfg, before + [at] + after, k, k', name);
    ShareAround(CounterShare(cfg, name), cfg, k.timers, before, at, after, Op.Forget(false));
    C.CounterForgotten(cfg.counterRules, name, Lookup(k.counters, name), CounterHistory(cfg, k.timers, before)(name),
                    CounterHistory(cfg, TimersAfter(cfg, k.timers, before + [at]), after)(name));
  }

  /** An ignored counter neither changes nor broadcasts in any run, until a non-ignoring FORGET that matches it. */
  lemma IgnoredCounterIsFrozen(cfg: Config, ins: seq<Stamped>, k: Db, k': Db, name: string)
    requires Ran(cfg, ins, k, k') && name in k.counters && k.counters[name].ignore
    requires forall i | 0 <= i < |ins| :: Forgets(ins[i].input, PAYLOAD_COUNTER, name) ==> ins[i].input.ignore
    ensures Lookup(k'.counters, name) == Some(k.counters[name]) && Since(k, k', AboutCounter(name)) == []
  {
    hide C.CounterRun, Ran, Since;
    var ops := CounterHistory(cfg, k.timers, ins)(name);
    HistoryOrigin(CounterShare(cfg, name), cfg, k.timers, ins, (op: Op<i32>) => op != Op.Forget(false));
    assert forall i | 0 <= i < |ops| :: ops[i] in ops;
    C.CounterIgnored(cfg.counterRules, name, k.counters[name], ops);
    CounterStream(cfg, ins, k, k', name);
  }

  /** After a FORGET that removes the sample set, a run goes on as for a name never heard of. */
  lemma SampleStartsOver(cfg: Config, before: seq<Stamped>, at: Stamped, after: seq<Stamped>, k: Db, k': Db,
                         name: string)
    requires Ran(cfg, before + [at] + after, k, k') && Forgets(at.input, PAYLOAD_SAMPLE, name) && !at.input.ignore
    ensures var t := TimersAfter(cfg, k.timers, before + [at]);
            var (_, out1) := X.SampleRun(cfg.sampleRules, name, Lookup(k.samples, name),
                                         SampleHistory(cfg, k.timers, before)(name));
            var (s, out2) := X.SampleRun(cfg.sampleRules, name, None, SampleHistory(cfg, t, after)(name));
            Lookup(k'.samples, name) == s && Since(k, k', AboutSample(name)) == out1 + out2
  {
    hide X.SampleRun, Ran, Since, Project, TimersAfter;
    SampleStream(cfg, before + [at] + after, k, k', name);
    ShareAround(SampleShare(cfg, name), cfg, k.timers, before, at, after, Op.Forget(false));
    X.SampleForgotten(cfg.sampleRules, name, Lookup(k.samples, name), SampleHistory(cfg, k.timers, before)(name),
                    SampleHistory(cfg, TimersAfter(cfg, k.timers, before + [at]), after)(name));
  }

  /** An ignored sample set neither changes nor broadcasts in any run, until a non-ignoring FORGET that matches it. */
  lemma IgnoredSampleIsFrozen(cfg: Config, ins: seq<Stamped>, k: Db, k': Db, name: string)
    requires Ran(cfg, ins, k, k') && name in k.samples && k.samples[name].ignore
    requires forall i | 0 <= i < |ins| :: Forgets(ins[i].input, PAYLOAD_SAMPLE, name) ==> ins[i].input.ignore
    ensures Lookup(k'.samples, name) == Some(k.samples[name]) && Since(k, k', AboutSample(name)) == []
  {
    hide X.SampleRun, Ran, Since;
    var ops := SampleHistory(cfg, k.timers, ins)(name);
    HistoryOrigin(SampleShare(cfg, name), cfg, k.timers, ins, (op: Op<X.Values>) => op != Op.Forget(false));
    assert forall i | 0 <= i < |ops| :: ops[i] in ops;
    X.SampleIgnored(cfg.sampleRules, name, k.samples[name], ops);
    SampleStream(cfg, ins, k, k', name);
  }

  /** After a FORGET that removes the rate, a run goes on as for a name never heard of. */
  lemma RateStartsOver(cfg: Config, before: seq<Stamped>, at: Stamped, after: seq<Stamped>, k: Db, k': Db, name: string)
    requires Ran(cfg, before + [at] + after, k, k') && Forgets(at.input, PAYLOAD_RATE, name) && !at.input.ignore
    ensures var t := TimersAfter(cfg, k.timers, before + [at]);
            var (_, out1) := R.RateRun(cfg.rateRules, name, Lookup(k.rates, name),
                                       RateHistory(cfg, k.timers, before)(name));
            var (s, out2) := R.RateRun(cfg.rateRules, name, None, RateHistory(cfg, t, after)(name));
            Lookup(k'.rates, name) == s && Since(k, k', AboutRate(name)) == out1 + out2
  {
    hide R.RateRun, Ran, Since, Project, TimersAfter;
    RateStream(cfg, before + [at] + after, k, k', name);
    ShareAround(RateShare(cfg, name), cfg, k.timers, before, at, after, Op.Forget(false));
    R.RateForgotten(cfg.rateRules, name, Lookup(k.rates, name), RateHistory(cfg, k.timers, before)(name),
                    RateHistory(cfg, TimersAfter(cfg, k.timers, before + [at]), after)(name));
  }

  /** An ignored rate neither changes nor broadcasts in any run, until a non-ignoring FORGET that matches it. */
  lemma IgnoredRateIsFrozen(cfg: Config, ins: seq<Stamped>, k: Db, k': Db, name: string)
    requires Ran(cfg, ins, k, k') && name in k.rates && k.rates[name].ignore
    requires forall i | 0 <= i < |ins| :: Forgets(ins[i].input, PAYLOAD_RATE, name) ==> ins[i].input.ignore
    ensures Lookup(k'.rates, name) == Some(k.rates[name]) && Since(k, k', AboutRate(name)) == []
  {
    hide R.RateRun, Ran, Since;
    var ops := RateHistory(cfg, k.timers, ins)(name);
    HistoryOrigin(RateShare(cfg, name), cfg, k.timers, ins, (op: Op<u64>) => op != Op.Forget(false));
    assert forall i | 0 <= i < |ops| :: ops[i] in ops;
    R.RateIgnored(cfg.rateRules, name, k.rates[name], ops);
    RateStream(cfg, ins, k, k', name);
  }

  // ---------------------------------------------------------------- events

  function ReceivedEvents(ins: seq<Stamped>): seq<Event> {
    if ins == [] then []
    else if Last(ins).input.EventPdu? then ReceivedEvents(Front(ins)) + [Last(ins).input.event]
    else ReceivedEvents(Front(ins))
  }

  /** Whatever else happens in a run, the buffer is that of the events received: the last ones, or the new ones. */
  lemma EventsKept(cfg: Config, ins: seq<Stamped>)
    ensures var evs, kept := ReceivedEvents(ins), EventsAfter(cfg, [], ins);
            && (cfg.eventsMax <= 0 ==> kept == [])
            && (cfg.eventsMax > 0 && cfg.eventsKeep == KeepNumber ==>
                  kept == evs[(if |evs| > cfg.eventsMax then |evs| - cfg.eventsMax else 0)..])
            && (cfg.eventsMax > 0 && cfg.eventsKeep == KeepTime && evs != [] && Ordered(evs) ==>
                  kept == NewerThan(evs, Last(evs).timestamp - cfg.eventsMax))
  {
    hide BufferAll, EventsAfter, ReceivedEvents, NewerThan, Ordered;
    var evs := ReceivedEvents(ins);
    EventsAreBuffered(cfg, ins);
    if cfg.eventsMax <= 0 {
      NoRoomKeepsNothing(evs, cfg.eventsMax, cfg.eventsKeep);
    } else {
      NumberModeKeepsTheLast(evs, cfg.eventsMax);
      if evs != [] && Ordered(evs) {
        TimeModeKeepsTheNew(evs, cfg.eventsMax);
      }
    }
  }

  lemma {:induction false} EventsAreBuffered(cfg: Config, ins: seq<Stamped>)
    ensures EventsAfter(cfg, [], ins) == BufferAll(ReceivedEvents(ins), cfg.eventsMax, cfg.eventsKeep)
  {
    hide Buffered;
    if ins == [] {
    } else {
      EventsAreBuffered(cfg, Front(ins));
      if Last(ins).input.EventPdu? {
        assert Front(ReceivedEvents(ins)) == ReceivedEvents(Front(ins));
      }
    }
  }
}
