/**
 What one input does, wherever in a run it comes: ticks, freshness passes, updates, FORGETs and keys, stated on
 the tables before and after it and on the broadcasts between.
 */
module KernelSteps {
  import opened Basics
  import opened Machines
  import opened Metrics
  import opened Streams
  import opened Kernels
  import opened KernelTheorems
  import C = Counters
  import X = Samples
  import R = Rates
  import opened States
  import opened Events
  import Stats = SampleStats

  // ---------------------------------------------------------------- the rest of a run

  lemma MovedOn<S, O>(machine: string -> Machine<S, O>, mk: string -> Topic,
                      ops1: string -> seq<O>, ops2: string -> seq<O>, ops: string -> seq<O>,
                      a: map<string, S>, log: seq<Broadcast>, b: map<string, S>, log1: seq<Broadcast>,
                      c: map<string, S>, log2: seq<Broadcast>)
    requires Moved(machine, mk, ops1, a, log, b, log1) && Moved(machine, mk, ops, a, log, c, log2)
    requires forall n :: ops(n) == ops1(n) + ops2(n)
    ensures Moved(machine, mk, ops2, b, log1, c, log2)
  {
    forall n ensures var (s, out) := RunOf(machine(n), Lookup(b, n), ops2(n));
                     Lookup(c, n) == s && About(log2, mk(n)) == About(log1, mk(n)) + out
    {
      RunConcat(machine(n), Lookup(a, n), ops1(n), ops2(n));
      var (_, out1) := RunOf(machine(n), Lookup(a, n), ops1(n));
      var (_, out2) := RunOf(machine(n), Lookup(b, n), ops2(n));
      assert (About(log, mk(n)) + out1) + out2 == About(log, mk(n)) + (out1 + out2);
    }
  }

  /** A run that goes on after some inputs is, from there, a run of the others. */
  lemma RanOn(cfg: Config, a: seq<Stamped>, b: seq<Stamped>, k: Db, k1: Db, k2: Db)
    requires Ran(cfg, a, k, k1) && Ran(cfg, a + b, k, k2)
    ensures Ran(cfg, b, k1, k2)
  {
    hide Moved, Project;
    forall n
      ensures StateHistory(cfg, k.timers, a + b)(n)
        == StateHistory(cfg, k.timers, a)(n) + StateHistory(cfg, k1.timers, b)(n)
      ensures CounterHistory(cfg, k.timers, a + b)(n)
        == CounterHistory(cfg, k.timers, a)(n) + CounterHistory(cfg, k1.timers, b)(n)
      ensures SampleHistory(cfg, k.timers, a + b)(n)
        == SampleHistory(cfg, k.timers, a)(n) + SampleHistory(cfg, k1.timers, b)(n)
      ensures RateHistory(cfg, k.timers, a + b)(n)
        == RateHistory(cfg, k.timers, a)(n) + RateHistory(cfg, k1.timers, b)(n)
    {
      ProjectConcat(StateShare(cfg, n), cfg, k.timers, a, b);
      ProjectConcat(CounterShare(cfg, n), cfg, k.timers, a, b);
      ProjectConcat(SampleShare(cfg, n), cfg, k.timers, a, b);
      ProjectConcat(RateShare(cfg, n), cfg, k.timers, a, b);
    }
    ProjectConcat(StateShare(cfg, ""), cfg, k.timers, a, b);
    MovedOn(StateMachines(cfg), StateTopic(), StateHistory(cfg, k.timers, a), StateHistory(cfg, k1.timers, b),
            StateHistory(cfg, k.timers, a + b), k.states, k.log, k1.states, k1.log, k2.states, k2.log);
    MovedOn(CounterMachines(cfg), CounterTopic(), CounterHistory(cfg, k.timers, a), CounterHistory(cfg, k1.timers, b),
            CounterHistory(cfg, k.timers, a + b), k.counters, k.log, k1.counters, k1.log, k2.counters, k2.log);
    MovedOn(SampleMachines(cfg), SampleTopic(), SampleHistory(cfg, k.timers, a), SampleHistory(cfg, k1.timers, b),
            SampleHistory(cfg, k.timers, a + b), k.samples, k.log, k1.samples, k1.log, k2.samples, k2.log);
    MovedOn(RateMachines(cfg), RateTopic(), RateHistory(cfg, k.timers, a), RateHistory(cfg, k1.timers, b),
            RateHistory(cfg, k.timers, a + b), k.rates, k.log, k1.rates, k1.log, k2.rates, k2.log);
  }

  /** The share of a name in one input. */
  lemma ShareOfOne<O>(f: (Timers, Stamped) -> seq<O>, cfg: Config, t: Timers, at: Stamped)
    ensures Project(f, cfg, t, [at]) == f(t, at)
  {
    assert Front([at]) == [];
    assert [] + f(t, at) == f(t, at);
  }

  // ---------------------------------------------------------------- ticks

  /**
   A due tick broadcasts and empties exactly the counters that are not ignored and hold data of a window that
   ended more than the grace period ago, once each; every other counter stays as it is, and so do all when the
   tick is not due.  Afterwards no such counter is left.
   */
  lemma CountersFlushed(cfg: Config, ins: seq<Stamped>, k: Db, k1: Db, k2: Db, now: int, name: string)
    requires Ran(cfg, ins, k, k1) && Ran(cfg, ins + [At(now, Tock)], k, k2)
    ensures var due, news := k1.timers.tick + cfg.tickInterval < now, Since(k1, k2, AboutCounter(name));
            if name !in k1.counters then name !in k2.counters && news == []
            else
              var c := k1.counters[name];
              && name in k2.counters
              && (if due && !c.ignore && Over(c.window, c.lastSeen, now - cfg.grace) then
                k2.counters[name] == c.(lastSeen := 0, value := 0)
                && news == [CounterCast(Rounded(c.window, c.lastSeen) % TWO32, name, c.value)]
              else
                k2.counters[name] == c && news == [])
    ensures k1.timers.tick + cfg.tickInterval < now && name in k2.counters && !k2.counters[name].ignore ==>
              !Over(k2.counters[name].window, k2.counters[name].lastSeen, now - cfg.grace)
  {
    hide Ran, Since, Over, Rounded, C.CounterTick, RunOf;
    var at, cutoff := At(now, Tock), now - cfg.grace;
    RanOn(cfg, ins, [at], k, k1, k2);
    CounterStream(cfg, [at], k1, k2, name);
    ShareOfOne(CounterShare(cfg, name), cfg, k1.timers, at);
    NothingRuns(C.CounterMachine(cfg.counterRules, name), Lookup(k1.counters, name));
    RunOne(C.CounterMachine(cfg.counterRules, name), Lookup(k1.counters, name), Op<i32>.Tick(cutoff));
    if name in k1.counters {
      C.CounterTicked(name, k1.counters[name], cutoff);
      EmptyIsNotOver(k1.counters[name].window, cutoff);
    }
  }

  /**
   A due tick broadcasts and empties exactly the sample sets that are not ignored and hold data of a window that
   ended more than the grace period ago, once each; every other sample set stays as it is, and so do all when the
   tick is not due.  Afterwards no such sample set is left.
   */
  lemma SamplesFlushed(cfg: Config, ins: seq<Stamped>, k: Db, k1: Db, k2: Db, now: int, name: string)
    requires Ran(cfg, ins, k, k1) && Ran(cfg, ins + [At(now, Tock)], k, k2)
    ensures var due, news := k1.timers.tick + cfg.tickInterval < now, Since(k1, k2, AboutSample(name));
            if name !in k1.samples then name !in k2.samples && news == []
            else
              var x := k1.samples[name];
              && name in k2.samples
              && (if due && !x.ignore && Over(x.window, x.lastSeen, now - cfg.grace) then
                k2.samples[name] == x.(lastSeen := 0, stats := Stats.EMPTY)
                && news == [SampleCast(Rounded(x.window, x.lastSeen) % TWO32, name, x.stats.n % TWO32, x.stats.min,
                                       x.stats.max, x.stats.sum, x.stats.mean, x.stats.vari)]
              else
                k2.samples[name] == x && news == [])
    ensures k1.timers.tick + cfg.tickInterval < now && name in k2.samples && !k2.samples[name].ignore ==>
              !Over(k2.samples[name].window, k2.samples[name].lastSeen, now - cfg.grace)
  {
    hide Ran, Since, Over, Rounded, X.SampleTick, RunOf;
    var at, cutoff := At(now, Tock), now - cfg.grace;
    RanOn(cfg, ins, [at], k, k1, k2);
    SampleStream(cfg, [at], k1, k2, name);
    ShareOfOne(SampleShare(cfg, name), cfg, k1.timers, at);
    NothingRuns(X.SampleMachine(cfg.sampleRules, name), Lookup(k1.samples, name));
    RunOne(X.SampleMachine(cfg.sampleRules, name), Lookup(k1.samples, name), Op<X.Values>.Tick(cutoff));
    if name in k1.samples {
      X.SampleTicked(name, k1.samples[name], cutoff);
      EmptyIsNotOver(k1.samples[name].window, cutoff);
    }
  }

  /**
   A due tick broadcasts and empties exactly the rates that are not ignored and hold data of a window that
   ended more than the grace period ago, once each; every other rate stays as it is, and so do all when the
   tick is not due.  Afterwards no such rate is left.
   */
  lemma RatesFlushed(cfg: Config, ins: seq<Stamped>, k: Db, k1: Db, k2: Db, now: int, name: string)
    requires Ran(cfg, ins, k, k1) && Ran(cfg, ins + [At(now, Tock)], k, k2)
    ensures var due, news := k1.timers.tick + cfg.tickInterval < now, Since(k1, k2, AboutRate(name));
            if name !in k1.rates then name !in k2.rates && news == []
            else
              var r := k1.rates[name];
              && name in k2.rates
              && (if due && !r.ignore && Over(r.window, r.lastSeen, now - cfg.grace) then
                k2.rates[name] == r.(firstSeen := 0, lastSeen := 0, first := 0, last := 0)
                && |news| == 1 && news[0].RateCast? && news[0].name == name && news[0].span == r.window
                && news[0].ts == Rounded(r.window, r.lastSeen) % TWO32
                && R.Slope(news[0].rate, r.lastSeen - r.firstSeen, R.Difference(r.first, r.last), r.window)
              else
                k2.rates[name] == r && news == [])
    ensures k1.timers.tick + cfg.tickInterval < now && name in k2.rates && !k2.rates[name].ignore ==>
              !Over(k2.rates[name].window, k2.rates[name].lastSeen, now - cfg.grace)
  {
    hide Ran, Since, Over, Rounded, R.RateTick, RunOf, R.Slope, R.Difference;
    var at, cutoff := At(now, Tock), now - cfg.grace;
    RanOn(cfg, ins, [at], k, k1, k2);
    RateStream(cfg, [at], k1, k2, name);
    ShareOfOne(RateShare(cfg, name), cfg, k1.timers, at);
    NothingRuns(R.RateMachine(cfg.rateRules, name), Lookup(k1.rates, name));
    RunOne(R.RateMachine(cfg.rateRules, name), Lookup(k1.rates, name), Op<u64>.Tick(cutoff));
    if name in k1.rates {
      R.RateTicked(name, k1.rates[name], cutoff);
      EmptyIsNotOver(k1.rates[name].window, cutoff);
    }
  }

  lemma NothingRuns<S, O>(step: (S, O) -> (S, seq<Broadcast>), s: S)
    ensures RunOf(step, s, []) == (s, [])
  {
  }

  lemma EmptyIsNotOver(window: pos, cutoff: int)
    ensures !Over(window, 0, cutoff)
  {
  }

  // ---------------------------------------------------------------- FORGET with ignore

  lemma MarkOne<S, O>(machine: string -> Machine<S, O>, mk: string -> Topic,
                      feed: string -> seq<O>, was: map<string, S>, log: seq<Broadcast>,
                      will: map<string, S>, log': seq<Broadcast>, hit: bool, flag: O, mark: S -> S, n: string)
    requires Moved(machine, mk, feed, was, log, will, log')
    requires feed(n) == (if hit then [flag] else []) && machine(n)(None, flag) == (None, [])
    requires n in was ==> machine(n)(Some(was[n]), flag) == (Some(mark(was[n])), [])
    ensures Lookup(will, n) == if n !in was then None else if hit then Some(mark(was[n])) else Some(was[n])
    ensures About(log', mk(n)) == About(log, mk(n))
  {
    hide About;
    RunOne(machine(n), Lookup(was, n), flag);
    var (_, out) := RunOf(machine(n), Lookup(was, n), feed(n));
    assert About(log', mk(n)) == About(log, mk(n)) + out;
  }

  ghost function MarkedWhere<V>(m: map<string, V>, hit: string -> bool, mark: V -> V): map<string, V> {
    map n | n in m :: if hit(n) then mark(m[n]) else m[n]
  }

  lemma TableMarked<S, O>(machine: string -> Machine<S, O>, mk: string -> Topic,
                          feed: string -> seq<O>, was: map<string, S>, log: seq<Broadcast>,
                          will: map<string, S>, log': seq<Broadcast>, hit: string -> bool, flag: O, mark: S -> S)
    requires Moved(machine, mk, feed, was, log, will, log')
    requires forall n :: feed(n) == (if hit(n) then [flag] else []) && machine(n)(None, flag) == (None, [])
    requires forall n | n in was :: machine(n)(Some(was[n]), flag) == (Some(mark(was[n])), [])
    ensures will == MarkedWhere(was, hit, mark) && forall n :: About(log', mk(n)) == About(log, mk(n))
  {
    hide Moved, About;
    forall n
      ensures Lookup(will, n) == Lookup(MarkedWhere(was, hit, mark), n) && About(log', mk(n)) == About(log, mk(n))
    {
      MarkOne(machine, mk, feed, was, log, will, log', hit(n), flag, mark, n);
    }
    MapsAgree(will, MarkedWhere(was, hit, mark));
  }

  /**
   With ignore, FORGET flags exactly the matching names of the selected kinds that are in the tables, keeps
   every other field of them and every other entry, and broadcasts nothing.
   */
  lemma ForgetMarksExactly(cfg: Config, now: int, payload: bv16, matches: string -> bool, k: Db, k': Db)
    requires Reacts(cfg, At(now, ForgetPdu(payload, Some(matches), true)), k, k')
    ensures k'.states == MarkedWhere(k.states, n => payload & PAYLOAD_STATE != 0 && matches(n),
                                     (s: State) => s.(ignore := true))
    ensures k'.counters == MarkedWhere(k.counters, n => payload & PAYLOAD_COUNTER != 0 && matches(n),
                                     (s: C.Counter) => s.(ignore := true))
    ensures k'.samples == MarkedWhere(k.samples, n => payload & PAYLOAD_SAMPLE != 0 && matches(n),
                                     (s: X.Sample) => s.(ignore := true))
    ensures k'.rates == MarkedWhere(k.rates, n => payload & PAYLOAD_RATE != 0 && matches(n),
                                     (s: R.Rate) => s.(ignore := true))
    ensures forall topic: Topic | !topic.AboutEvent? && !topic.AboutKeys? :: About(k'.log, topic) == About(k.log, topic)
  {
    hide About, Reacts, MarkedWhere;
    StatesMarked(cfg, now, payload, matches, k, k');
    CountersMarked(cfg, now, payload, matches, k, k');
    SamplesMarked(cfg, now, payload, matches, k, k');
    RatesMarked(cfg, now, payload, matches, k, k');
    forall topic: Topic | !topic.AboutEvent? && !topic.AboutKeys? ensures About(k'.log, topic) == About(k.log, topic) {
      assert topic.AboutState? || topic.AboutCounter? || topic.AboutSample? || topic.AboutRate?;
    }
  }

  lemma StatesMarked(cfg: Config, now: int, payload: bv16, matches: string -> bool, k: Db, k': Db)
    requires Reacts(cfg, At(now, ForgetPdu(payload, Some(matches), true)), k, k')
    ensures k'.states == MarkedWhere(k.states, n => payload & PAYLOAD_STATE != 0 && matches(n),
                                     (s: State) => s.(ignore := true))
    ensures forall n :: About(k'.log, AboutState(n)) == About(k.log, AboutState(n))
  {
    hide About, Moved, MarkedWhere;
    var at := At(now, ForgetPdu(payload, Some(matches), true));
    TableMarked(StateMachines(cfg), StateTopic(), StateFeed(cfg, k.timers, at), k.states, k.log, k'.states,
                k'.log, n => payload & PAYLOAD_STATE != 0 && matches(n), Drop(true),
                (s: State) => s.(ignore := true));
    assert forall n :: StateTopic()(n) == AboutState(n);
  }

  lemma CountersMarked(cfg: Config, now: int, payload: bv16, matches: string -> bool, k: Db, k': Db)
    requires Reacts(cfg, At(now, ForgetPdu(payload, Some(matches), true)), k, k')
    ensures k'.counters == MarkedWhere(k.counters, n => payload & PAYLOAD_COUNTER != 0 && matches(n),
                                     (s: C.Counter) => s.(ignore := true))
    ensures forall n :: About(k'.log, AboutCounter(n)) == About(k.log, AboutCounter(n))
  {
    hide About, Moved, MarkedWhere;
    var at := At(now, ForgetPdu(payload, Some(matches), true));
    TableMarked(CounterMachines(cfg), CounterTopic(), CounterFeed(cfg, k.timers, at), k.counters, k.log, k'.counters,
                k'.log, n => payload & PAYLOAD_COUNTER != 0 && matches(n), Op.Forget(true),
                (s: C.Counter) => s.(ignore := true));
    assert forall n :: CounterTopic()(n) == AboutCounter(n);
  }

  lemma SamplesMarked(cfg: Config, now: int, payload: bv16, matches: string -> bool, k: Db, k': Db)
    requires Reacts(cfg, At(now, ForgetPdu(payload, Some(matches), true)), k, k')
    ensures k'.samples == MarkedWhere(k.samples, n => payload & PAYLOAD_SAMPLE != 0 && matches(n),
                                     (s: X.Sample) => s.(ignore := true))
    ensures forall n :: About(k'.log, AboutSample(n)) == About(k.log, AboutSample(n))
  {
    hide About, Moved, MarkedWhere;
    var at := At(now, ForgetPdu(payload, Some(matches), true));
    TableMarked(SampleMachines(cfg), SampleTopic(), SampleFeed(cfg, k.timers, at), k.samples, k.log, k'.samples,
                k'.log, n => payload & PAYLOAD_SAMPLE != 0 && matches(n), Op.Forget(true),
                (s: X.Sample) => s.(ignore := true));
    assert forall n :: SampleTopic()(n) == AboutSample(n);
  }

  lemma RatesMarked(cfg: Config, now: int, payload: bv16, matches: string -> bool, k: Db, k': Db)
    requires Reacts(cfg, At(now, ForgetPdu(payload, Some(matches), true)), k, k')
    ensures k'.rates == MarkedWhere(k.rates, n => payload & PAYLOAD_RATE != 0 && matches(n),
                                     (s: R.Rate) => s.(ignore := true))
    ensures forall n :: About(k'.log, AboutRate(n)) == About(k.log, AboutRate(n))
  {
    hide About, Moved, MarkedWhere;
    var at := At(now, ForgetPdu(payload, Some(matches), true));
    TableMarked(RateMachines(cfg), RateTopic(), RateFeed(cfg, k.timers, at), k.rates, k.log, k'.rates,
                k'.log, n => payload & PAYLOAD_RATE != 0 && matches(n), Op.Forget(true),
                (s: R.Rate) => s.(ignore := true));
    assert forall n :: RateTopic()(n) == AboutRate(n);
  }

  /** A pattern that does not compile forgets nothing. */
  lemma BadPatternForgetsNothing(cfg: Config, now: int, payload: bv16, ignore: bool, k: Db, k': Db, name: string)
    requires Reacts(cfg, At(now, ForgetPdu(payload, None, ignore)), k, k')
    ensures Lookup(k'.states, name) == Lookup(k.states, name) && Lookup(k'.counters, name) == Lookup(k.counters, name)
    ensures Lookup(k'.samples, name) == Lookup(k.samples, name) && Lookup(k'.rates, name) == Lookup(k.rates, name)
    ensures forall topic: Topic | topic in {AboutState(name), AboutCounter(name), AboutSample(name), AboutRate(name)} ::
              About(k'.log, topic) == About(k.log, topic)
  {
    hide About;
    assert forall topic :: About(k.log, topic) + [] == About(k.log, topic);
    assert StateTopic()(name) == AboutState(name) && CounterTopic()(name) == AboutCounter(name);
    assert SampleTopic()(name) == AboutSample(name) && RateTopic()(name) == AboutRate(name);
  }

  /**
   A state that is known when an ignoring FORGET matches it is flagged and otherwise left as it is, and the
   rest of the run neither changes it nor broadcasts about it, until a non-ignoring FORGET that matches it.
   */
  lemma StateIsIgnored(cfg: Config, before: seq<Stamped>, at: Stamped, after: seq<Stamped>, k: Db, k1: Db, k2: Db,
                     name: string)
    requires Ran(cfg, before, k, k1) && Ran(cfg, before + [at] + after, k, k2) && name in k1.states
    requires Forgets(at.input, PAYLOAD_STATE, name) && at.input.ignore
    requires forall i | 0 <= i < |after| :: Forgets(after[i].input, PAYLOAD_STATE, name) ==> after[i].input.ignore
    ensures Lookup(k2.states, name) == Some(k1.states[name].(ignore := true))
    ensures Since(k1, k2, AboutState(name)) == []
  {
    hide Ran, Since, Project, TimersAfter, RunOf;
    var f, rest := StateShare(cfg, name), [] + [at] + after;
    assert before + [at] + after == before + rest;
    RanOn(cfg, before, rest, k, k1, k2);
    StateStream(cfg, rest, k1, k2, name);
    NoInputs(f, cfg, k1.timers);
    ShareAround(f, cfg, k1.timers, [], at, after, Drop(true));
    var t := TimersAfter(cfg, k1.timers, [] + [at]);
    var ops := Project(f, cfg, t, after);
    HistoryOrigin(f, cfg, t, after, (op: StateOp) => op != Drop(false));
    assert forall i | 0 <= i < |ops| :: ops[i] in ops;
    NothingRuns(StateMachine(cfg.stateRules, name), Lookup(k1.states, name));
    StateMarked(cfg.stateRules, name, Lookup(k1.states, name), [], ops);
    assert [] + [Drop(true)] + ops == Project(f, cfg, k1.timers, rest);
  }

  /**
   A counter that is known when an ignoring FORGET matches it is flagged and otherwise left as it is, and the
   rest of the run neither changes it nor broadcasts about it, until a non-ignoring FORGET that matches it.
   */
  lemma CounterIsIgnored(cfg: Config, before: seq<Stamped>, at: Stamped, after: seq<Stamped>, k: Db, k1: Db, k2: Db,
                     name: string)
    requires Ran(cfg, before, k, k1) && Ran(cfg, before + [at] + after, k, k2) && name in k1.counters
    requires Forgets(at.input, PAYLOAD_COUNTER, name) && at.input.ignore
    requires forall i | 0 <= i < |after| :: Forgets(after[i].input, PAYLOAD_COUNTER, name) ==> after[i].input.ignore
    ensures Lookup(k2.counters, name) == Some(k1.counters[name].(ignore := true))
    ensures Since(k1, k2, AboutCounter(name)) == []
  {
    hide Ran, Since, Project, TimersAfter, RunOf;
    var f, rest := CounterShare(cfg, name), [] + [at] + after;
    assert before + [at] + after == before + rest;
    RanOn(cfg, before, rest, k, k1, k2);
    CounterStream(cfg, rest, k1, k2, name);
    NoInputs(f, cfg, k1.timers);
    ShareAround(f, cfg, k1.timers, [], at, after, Op.Forget(true));
    var t := TimersAfter(cfg, k1.timers, [] + [at]);
    var ops := Project(f, cfg, t, after);
    HistoryOrigin(f, cfg, t, after, (op: Op<i32>) => op != Op.Forget(false));
    assert forall i | 0 <= i < |ops| :: ops[i] in ops;
    NothingRuns(C.CounterMachine(cfg.counterRules, name), Lookup(k1.counters, name));
    C.CounterMarked(cfg.counterRules, name, Lookup(k1.counters, name), [], ops);
    assert [] + [Op.Forget(true)] + ops == Project(f, cfg, k1.timers, rest);
  }

  /**
   A sample set that is known when an ignoring FORGET matches it is flagged and otherwise left as it is, and the
   rest of the run neither changes it nor broadcasts about it, until a non-ignoring FORGET that matches it.
   */
  lemma SampleIsIgnored(cfg: Config, before: seq<Stamped>, at: Stamped, after: seq<Stamped>, k: Db, k1: Db, k2: Db,
                     name: string)
    requires Ran(cfg, before, k, k1) && Ran(cfg, before + [at] + after, k, k2) && name in k1.samples
    requires Forgets(at.input, PAYLOAD_SAMPLE, name) && at.input.ignore
    requires forall i | 0 <= i < |after| :: Forgets(after[i].input, PAYLOAD_SAMPLE, name) ==> after[i].input.ignore
    ensures Lookup(k2.samples, name) == Some(k1.samples[name].(ignore := true))
    ensures Since(k1, k2, AboutSample(name)) == []
  {
    hide Ran, Since, Project, TimersAfter, RunOf;
    var f, rest := SampleShare(cfg, name), [] + [at] + after;
    assert before + [at] + after == before + rest;
    RanOn(cfg, before, rest, k, k1, k2);
    SampleStream(cfg, rest, k1, k2, name);
    NoInputs(f, cfg, k1.timers);
    ShareAround(f, cfg, k1.timers, [], at, after, Op.Forget(true));
    var t := TimersAfter(cfg, k1.timers, [] + [at]);
    var ops := Project(f, cfg, t, after);
    HistoryOrigin(f, cfg, t, after, (op: Op<X.Values>) => op != Op.Forget(false));
    assert forall i | 0 <= i < |ops| :: ops[i] in ops;
    NothingRuns(X.SampleMachine(cfg.sampleRules, name), Lookup(k1.samples, name));
    X.SampleMarked(cfg.sampleRules, name, Lookup(k1.samples, name), [], ops);
    assert [] + [Op.Forget(true)] + ops == Project(f, cfg, k1.timers, rest);
  }

  /**
   A rate that is known when an ignoring FORGET matches it is flagged and otherwise left as it is, and the
   rest of the run neither changes it nor broadcasts about it, until a non-ignoring FORGET that matches it.
   */
  lemma RateIsIgnored(cfg: Config, before: seq<Stamped>, at: Stamped, after: seq<Stamped>, k: Db, k1: Db, k2: Db,
                     name: string)
    requires Ran(cfg, before, k, k1) && Ran(cfg, before + [at] + after, k, k2) && name in k1.rates
    requires Forgets(at.input, PAYLOAD_RATE, name) && at.input.ignore
    requires forall i | 0 <= i < |after| :: Forgets(after[i].input, PAYLOAD_RATE, name) ==> after[i].input.ignore
    ensures Lookup(k2.rates, name) == Some(k1.rates[name].(ignore := true))
    ensures Since(k1, k2, AboutRate(name)) == []
  {
    hide Ran, Since, Project, TimersAfter, RunOf;
    var f, rest := RateShare(cfg, name), [] + [at] + after;
    assert before + [at] + after == before + rest;
    RanOn(cfg, before, rest, k, k1, k2);
    RateStream(cfg, rest, k1, k2, name);
    NoInputs(f, cfg, k1.timers);
    ShareAround(f, cfg, k1.timers, [], at, after, Op.Forget(true));
    var t := TimersAfter(cfg, k1.timers, [] + [at]);
    var ops := Project(f, cfg, t, after);
    HistoryOrigin(f, cfg, t, after, (op: Op<u64>) => op != Op.Forget(false));
    assert forall i | 0 <= i < |ops| :: ops[i] in ops;
    NothingRuns(R.RateMachine(cfg.rateRules, name), Lookup(k1.rates, name));
    R.RateMarked(cfg.rateRules, name, Lookup(k1.rates, name), [], ops);
    assert [] + [Op.Forget(true)] + ops == Project(f, cfg, k1.timers, rest);
  }

  lemma NoInputs<O>(f: (Timers, Stamped) -> seq<O>, cfg: Config, t: Timers)
    ensures Project(f, cfg, t, []) == [] && TimersAfter(cfg, t, []) == t
  {
  }

  // ---------------------------------------------------------------- states

  /**
   A well-formed STATE for a name that is watched, or that a rule matches, sets the state to what it says and
   broadcasts it, after a TRANSITION if the staleness or the status changed; any other STATE does nothing more
   than create the entry of a name that a rule matches.
   */
  lemma StateIsTold(cfg: Config, ins: seq<Stamped>, k: Db, k1: Db, k2: Db, now: int, ts: u32, name: string, code: u8,
                    msg: string)
    requires Ran(cfg, ins, k, k1) && Ran(cfg, ins + [At(now, StatePdu(ts, name, code, msg))], k, k2)
    ensures var found, s := FindState(cfg.stateRules, name, Lookup(k1.states, name), now), Lookup(k2.states, name);
            var news := Since(k1, k2, AboutState(name));
            if name == "" || msg == "" then s == Lookup(k1.states, name) && news == []
            else if found.None? || found.value.ignore then s == found && news == []
            else
              && s.Some? && s.value.typ == found.value.typ && s.value.lastSeen == ToI32(ts) && s.value.status == code
              && s.value.summary == msg && !s.value.stale && !s.value.ignore
              && Announces(news, name, s.value, found.value.stale || found.value.status != code)
    ensures forall n | n != name :: Lookup(k2.states, n) == Lookup(k1.states, n) && Since(k1, k2, AboutState(n)) == []
  {
    hide Ran, Since, RunOf, StateStep, FindState, Announces, ToI32;
    var at := At(now, StatePdu(ts, name, code, msg));
    RanOn(cfg, ins, [at], k, k1, k2);
    forall n
      ensures (Lookup(k2.states, n), Since(k1, k2, AboutState(n)))
        == RunOf(StateMachine(cfg.stateRules, n), Lookup(k1.states, n), StateOps(cfg, k1.timers, at, n))
    {
      StateStream(cfg, [at], k1, k2, n);
      ShareOfOne(StateShare(cfg, n), cfg, k1.timers, at);
    }
    forall n ensures RunOf(StateMachine(cfg.stateRules, n), Lookup(k1.states, n), []) == (Lookup(k1.states, n), []) {
      NothingRuns(StateMachine(cfg.stateRules, n), Lookup(k1.states, n));
    }
    RunOne(StateMachine(cfg.stateRules, name), Lookup(k1.states, name), Update(ts, code, msg, now));
    UpdateAnnounces(cfg.stateRules, name, Lookup(k1.states, name), ts, code, msg, now);
  }

  /**
   A due freshness pass marks exactly the states that are not ignored and have expired: they become stale, take
   the status and summary of their type, and expire again one interval from now, and this is broadcast, with a
   TRANSITION if it is news.  Every other state stays as it is, and so do all when the pass is not due.
   */
  lemma ExpiredAreMarked(cfg: Config, ins: seq<Stamped>, k: Db, k1: Db, k2: Db, now: int, name: string)
    requires Ran(cfg, ins, k, k1) && Ran(cfg, ins + [At(now, Tock)], k, k2)
    ensures var due, news := k1.timers.freshness + cfg.freshnessInterval < now, Since(k1, k2, AboutState(name));
            if name !in k1.states then name !in k2.states && news == []
            else
              var s := k1.states[name];
              && name in k2.states
              && (if due && !s.ignore && s.expiry <= now then
                k2.states[name] == s.(stale := true, status := s.typ.status, summary := s.typ.summary,
                                      expiry := now + s.typ.freshness)
                && Announces(news, name, k2.states[name], !s.stale || s.status != s.typ.status)
              else
                k2.states[name] == s && news == [])
  {
    hide Ran, Since, RunOf, StateStep, Announces;
    var at := At(now, Tock);
    RanOn(cfg, ins, [at], k, k1, k2);
    StateStream(cfg, [at], k1, k2, name);
    ShareOfOne(StateShare(cfg, name), cfg, k1.timers, at);
    NothingRuns(StateMachine(cfg.stateRules, name), Lookup(k1.states, name));
    RunOne(StateMachine(cfg.stateRules, name), Lookup(k1.states, name), Check(now));
    if name in k1.states {
      CheckAnnounces(cfg.stateRules, name, k1.states[name], now);
    } else {
      CheckUnknown(cfg.stateRules, name, now);
    }
  }

  lemma CheckUnknown(rules: seq<Rule<StateType>>, name: string, now: int)
    ensures StateStep(rules, name, None, Check(now)) == (None, [])
  {
  }

  /** Between FORGETs, the last record about a name says everything about its state as it is in the table. */
  lemma LastRecordIsCurrent(cfg: Config, ins: seq<Stamped>, k: Db, k': Db, name: string)
    requires Ran(cfg, ins, k, k') && NeverForgets(ins, PAYLOAD_STATE, name)
    ensures var news := Since(k, k', AboutState(name));
            news != [] ==> name in k'.states && Says(Last(news), name, k'.states[name])
  {
    hide StateRun, Ran, Since, Says;
    var ops := StateHistory(cfg, k.timers, ins)(name);
    HistoryOrigin(StateShare(cfg, name), cfg, k.timers, ins, (op: StateOp) => !op.Drop?);
    assert forall i | 0 <= i < |ops| :: ops[i] in ops;
    LastRecordSays(cfg.stateRules, name, Lookup(k.states, name), ops);
    StateStream(cfg, ins, k, k', name);
  }

  /** A state that is not in the table and that no rule matches never gets there, and nothing is said about it. */
  lemma UnknownState(cfg: Config, ins: seq<Stamped>, k: Db, k': Db, name: string)
    requires Ran(cfg, ins, k, k') && name !in k.states
    requires forall i | 0 <= i < |cfg.stateRules| :: !cfg.stateRules[i].matches(name)
    ensures name !in k'.states && Since(k, k', AboutState(name)) == []
  {
    hide Ran, Since, FirstMatch;
    FirstMatchDecides(cfg.stateRules, name);
    StateStream(cfg, ins, k, k', name);
    RunStuck(StateMachine(cfg.stateRules, name), None, StateHistory(cfg, k.timers, ins)(name));
  }

  /** A counter that is not in the table and that no rule matches never gets there, and nothing is said about it. */
  lemma UnknownCounter(cfg: Config, ins: seq<Stamped>, k: Db, k': Db, name: string)
    requires Ran(cfg, ins, k, k') && name !in k.counters
    requires forall i | 0 <= i < |cfg.counterRules| :: !cfg.counterRules[i].matches(name)
    ensures name !in k'.counters && Since(k, k', AboutCounter(name)) == []
  {
    hide Ran, Since, FirstMatch;
    FirstMatchDecides(cfg.counterRules, name);
    CounterStream(cfg, ins, k, k', name);
    RunStuck(C.CounterMachine(cfg.counterRules, name), None, CounterHistory(cfg, k.timers, ins)(name));
  }

  /** A sample set that is not in the table and that no rule matches never gets there, and nothing is said about it. */
  lemma UnknownSample(cfg: Config, ins: seq<Stamped>, k: Db, k': Db, name: string)
    requires Ran(cfg, ins, k, k') && name !in k.samples
    requires forall i | 0 <= i < |cfg.sampleRules| :: !cfg.sampleRules[i].matches(name)
    ensures name !in k'.samples && Since(k, k', AboutSample(name)) == []
  {
    hide Ran, Since, FirstMatch;
    FirstMatchDecides(cfg.sampleRules, name);
    SampleStream(cfg, ins, k, k', name);
    RunStuck(X.SampleMachine(cfg.sampleRules, name), None, SampleHistory(cfg, k.timers, ins)(name));
  }

  /** A rate that is not in the table and that no rule matches never gets there, and nothing is said about it. */
  lemma UnknownRate(cfg: Config, ins: seq<Stamped>, k: Db, k': Db, name: string)
    requires Ran(cfg, ins, k, k') && name !in k.rates
    requires forall i | 0 <= i < |cfg.rateRules| :: !cfg.rateRules[i].matches(name)
    ensures name !in k'.rates && Since(k, k', AboutRate(name)) == []
  {
    hide Ran, Since, FirstMatch;
    FirstMatchDecides(cfg.rateRules, name);
    RateStream(cfg, ins, k, k', name);
    RunStuck(R.RateMachine(cfg.rateRules, name), None, RateHistory(cfg, k.timers, ins)(name));
  }

  // ---------------------------------------------------------------- timers

  /** The three timed passes. */
  datatype Pass = MetricTick | Freshness | Savestate

  function LastRun(t: Timers, pass: Pass): int {
    match pass
    case MetricTick => t.tick
    case Freshness => t.freshness
    case Savestate => t.save
  }

  function Interval(cfg: Config, pass: Pass): int {
    match pass
    case MetricTick => cfg.tickInterval
    case Freshness => cfg.freshnessInterval
    case Savestate => cfg.saveInterval
  }

  /** Input `i` of a run is a timing interrupt at which the pass is due. */
  ghost predicate Runs(cfg: Config, t: Timers, ins: seq<Stamped>, pass: Pass, i: nat)
    requires i < |ins|
  {
    ins[i].input.Tock? && LastRun(TimersAfter(cfg, t, ins[..i]), pass) + Interval(cfg, pass) < ins[i].now
  }

  /** A timer says when its pass last ran: at input `i`, or before the run if `i` is -1. */
  lemma {:induction false} TimerIsLastRun(cfg: Config, t: Timers, ins: seq<Stamped>, pass: Pass) returns (i: int)
    ensures -1 <= i < |ins| && forall j | i < j < |ins| :: !Runs(cfg, t, ins, pass, j)
    ensures LastRun(TimersAfter(cfg, t, ins), pass) == if i < 0 then LastRun(t, pass) else ins[i].now
    ensures i >= 0 ==> Runs(cfg, t, ins, pass, i)
  {
    if ins == [] {
      i := -1;
    } else {
      var before := Front(ins);
      i := TimerIsLastRun(cfg, t, before, pass);
      forall j | 0 <= j < |before| ensures Runs(cfg, t, ins, pass, j) <==> Runs(cfg, t, before, pass, j) {
        assert before[..j] == ins[..j];
      }
      assert ins[..|ins| - 1] == before;
      if Runs(cfg, t, ins, pass, |ins| - 1) {
        i := |ins| - 1;
      }
    }
  }

  /**
   Whatever the interrupts, two runs of a pass one after the other are more than its interval apart, and an
   interrupt at which it does not run comes no later than one interval after it last ran.
   */
  lemma PassesAreSpaced(cfg: Config, t: Timers, ins: seq<Stamped>, pass: Pass, j: nat) returns (i: int)
    requires j < |ins| && ins[j].input.Tock?
    ensures -1 <= i < j && (i >= 0 ==> Runs(cfg, t, ins, pass, i))
    ensures forall l | i < l < j :: !Runs(cfg, t, ins, pass, l)
    ensures Runs(cfg, t, ins, pass, j)
            <==> (if i < 0 then LastRun(t, pass) else ins[i].now) + Interval(cfg, pass) < ins[j].now
  {
    var before := ins[..j];
    i := TimerIsLastRun(cfg, t, before, pass);
    forall l | 0 <= l < j ensures Runs(cfg, t, ins, pass, l) <==> Runs(cfg, t, before, pass, l) {
      assert before[..l] == ins[..l];
    }
  }

  // ---------------------------------------------------------------- events and keys

  /** The broadcasts for the events of one name. */
  function EventsNamed(evs: seq<Event>, name: string): seq<Broadcast> {
    if evs == [] then []
    else
      var ev := Last(evs);
      EventsNamed(Front(evs), name)
      + (if ev.name == name then [EventCast(ev.timestamp, ev.name, ev.extra)] else [])
  }

  /** Every event received is broadcast once, as it came and in order, and no other. */
  lemma EventsAreBroadcast(cfg: Config, t: Timers, keys: KeyTable, ins: seq<Stamped>, told: seq<Batches>,
                           log: seq<Broadcast>, log': seq<Broadcast>, name: string)
    requires HeardAll(cfg, t, keys, ins, told, log, log')
    ensures News(log, log', AboutEvent(name)) == EventsNamed(ReceivedEvents(ins), name)
  {
    hide About, PassesTell;
    EventsCast(ins, name);
  }

  lemma {:induction false} EventsCast(ins: seq<Stamped>, name: string)
    ensures EventCasts(ins, name) == EventsNamed(ReceivedEvents(ins), name)
  {
    if ins == [] {
    } else {
      EventsCast(Front(ins), name);
      if Last(ins).input.EventPdu? {
        assert Front(ReceivedEvents(ins)) == ReceivedEvents(Front(ins));
      }
    }
  }

  /** SET.KEYS gives a key the value of pair `i`, the last that sets it; with none (-1) the key stays as it was. */
  lemma {:induction false} SetPairsHolds(keys: KeyTable, pairs: seq<(string, string)>, key: string, i: int)
    requires -1 <= i < |pairs| && (i >= 0 ==> pairs[i].0 == key) && forall j | i < j < |pairs| :: pairs[j].0 != key
    ensures Lookup(SetPairs(keys, pairs), key) == if i < 0 then Lookup(keys, key) else Some(Some(pairs[i].1))
  {
    if pairs != [] && i < |pairs| - 1 {
      assert Last(pairs) == pairs[|pairs| - 1];
      SetPairsHolds(keys, Front(pairs), key, i);
    }
  }

  /** DEL.KEYS takes the values of the keys it names, and leaves the others alone. */
  lemma {:induction false} DelNamesHolds(keys: KeyTable, names: seq<string>, key: string)
    ensures Lookup(DelNames(keys, names), key) == if key in names then Some(None) else Lookup(keys, key)
  {
    if names == [] {
    } else {
      DelNamesHolds(keys, Front(names), key);
      FrontLast(names);
    }
  }

  /** The input sets or deletes the key. */
  ghost predicate Touches(input: Input, key: string) {
    || (input.SetKeysPdu? && exists i | 0 <= i < |input.pairs| :: input.pairs[i].0 == key)
    || (input.DelKeysPdu? && key in input.names)
  }

  /** An input that does not name a key leaves it as it was. */
  lemma KeyUntouched(keys: KeyTable, input: Input, key: string)
    requires !Touches(input, key)
    ensures Lookup(KeysNext(keys, input), key) == Lookup(keys, key)
  {
    hide SetPairs, DelNames;
    if input.SetKeysPdu? {
      SetPairsHolds(keys, input.pairs, key, -1);
    } else if input.DelKeysPdu? {
      DelNamesHolds(keys, input.names, key);
    }
  }

  /**
   After any run a key has the value that the last input to name it left it with: the last pair of a SET.KEYS,
   none after a DEL.KEYS, and what it had before the run if no input names it.
   */
  lemma {:induction false} KeyIsAsLastSet(keys: KeyTable, ins: seq<Stamped>, key: string, i: int, p: int)
    requires -1 <= i < |ins| && forall j | i < j < |ins| :: !Touches(ins[j].input, key)
    requires i >= 0 ==>
               || (ins[i].input.DelKeysPdu? && key in ins[i].input.names)
               || (&& ins[i].input.SetKeysPdu? && 0 <= p < |ins[i].input.pairs| && ins[i].input.pairs[p].0 == key
                   && forall j | p < j < |ins[i].input.pairs| :: ins[i].input.pairs[j].0 != key)
    ensures Lookup(KeysAfter(keys, ins), key) ==
            if i < 0 then Lookup(keys, key)
            else if ins[i].input.DelKeysPdu? then Some(None) else Some(Some(ins[i].input.pairs[p].1))
  {
    hide KeysNext, Touches;
    if ins == [] {
    } else {
      var before, last := Front(ins), Last(ins);
      assert last == ins[|ins| - 1];
      if i < |ins| - 1 {
        assert forall j | 0 <= j < |before| :: before[j] == ins[j];
        KeyIsAsLastSet(keys, before, key, i, p);
        KeyUntouched(KeysAfter(keys, before), last.input, key);
      } else {
        KeyTouched(KeysAfter(keys, before), last.input, key, p);
      }
    }
  }

  lemma KeyTouched(keys: KeyTable, input: Input, key: string, p: int)
    requires || (input.DelKeysPdu? && key in input.names)
             || (&& input.SetKeysPdu? && 0 <= p < |input.pairs| && input.pairs[p].0 == key
                 && forall j | p < j < |input.pairs| :: input.pairs[j].0 != key)
    ensures Lookup(KeysNext(keys, input), key) == Some(if input.DelKeysPdu? then None else Some(input.pairs[p].1))
  {
    hide SetPairs, DelNames;
    if input.SetKeysPdu? {
      SetPairsHolds(keys, input.pairs, key, p);
    } else {
      DelNamesHolds(keys, input.names, key);
    }
  }
}
