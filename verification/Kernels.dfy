/**
 The aggregation kernel: one reactor step per PDU or tick, over hash tables of states, counters,
 sample sets and rates, the event buffer and the key table.  `Kernel.React` is the reactor callback
 and `Kernel.Go` the reactor loop.  Their contracts say that, name by name and kind by kind, the
 table entry and the broadcast stream are those of the per-name machines.
 */
module Kernels {
  import opened Basics
  import opened Machines
  import opened Metrics
  import opened Streams
  import W = Windows
  import opened Counters
  import opened Samples
  import opened Rates
  import opened States
  import opened SampleStats
  import opened Events
  import Keys

  /** Server configuration: rules in order, grace period, event retention, and the timer intervals. */
  datatype Config = Config(
    stateRules: seq<Rule<StateType>>, counterRules: seq<Rule<pos>>,
    sampleRules: seq<Rule<pos>>, rateRules: seq<Rule<pos>>,
    grace: int, eventsMax: int, eventsKeep: Keep,
    tickInterval: int, freshnessInterval: int, saveInterval: int)

  datatype Input =
    | StatePdu(sts: u32, sname: string, code: u8, msg: string)
    | CounterPdu(cts: u32, cname: string, incr: i32)
    | SamplePdu(xts: u32, xname: string, values: Values)
    | RatePdu(rts: u32, rname: string, reading: u64)
    | EventPdu(event: Event)
    | SetKeysPdu(pairs: seq<(string, string)>)
    | DelKeysPdu(names: seq<string>)
    | ForgetPdu(payload: bv16, pattern: Option<string -> bool>, ignore: bool)  // None: the regex does not compile
    | Tock

  /** A deleted key keeps its slot, without a value. */
  type KeyTable = map<string, Option<string>>

  /** The pairs of a series of SET.KEYS PDUs. */
  type Batches = seq<seq<(string, string)>>

  /** An input together with the kernel clock when it is processed. */
  datatype Stamped = At(now: int, input: Input)

  const PAYLOAD_STATE: bv16 := 0x0001
  const PAYLOAD_COUNTER: bv16 := 0x0002
  const PAYLOAD_RATE: bv16 := 0x0004
  const PAYLOAD_SAMPLE: bv16 := 0x0008

  // ---------------------------------------------------------------- timers

  /** When the metric tick, the freshness pass and the savestate pass last ran. */
  datatype Timers = Timers(tick: int, freshness: int, save: int)

  predicate Due(last: int, interval: int, now: int) { last + interval < now }

  function TimersNext(cfg: Config, t: Timers, at: Stamped): Timers {
    if !at.input.Tock? then t
    else Timers(
      if Due(t.tick, cfg.tickInterval, at.now) then at.now else t.tick,
      if Due(t.freshness, cfg.freshnessInterval, at.now) then at.now else t.freshness,
      if Due(t.save, cfg.saveInterval, at.now) then at.now else t.save)
  }

  function TimersAfter(cfg: Config, t: Timers, ins: seq<Stamped>): Timers {
    if ins == [] then t else TimersNext(cfg, TimersAfter(cfg, t, Front(ins)), Last(ins))
  }

  // ---------------------------------------------------------------- what an input means to one name

  /** A tick that is due flushes windows which ended more than the grace period ago. */
  function TickOps<P>(cfg: Config, t: Timers, at: Stamped): seq<Op<P>> {
    if at.input.Tock? && Due(t.tick, cfg.tickInterval, at.now) then [Op.Tick(at.now - cfg.grace)] else []
  }

  predicate Forgets(input: Input, kind: bv16, name: string) {
    input.ForgetPdu? && input.payload & kind != 0 && input.pattern.Some? && input.pattern.value(name)
  }

  function CounterOps(cfg: Config, t: Timers, at: Stamped, name: string): seq<Op<i32>> {
    match at.input
    case CounterPdu(ts, who, payload) => if who == name && name != "" then [Op.Submit(ts, payload)] else []
    case ForgetPdu(_, _, ignore) => if Forgets(at.input, PAYLOAD_COUNTER, name) then [Op.Forget(ignore)] else []
    case _ => TickOps(cfg, t, at)
  }

  function SampleOps(cfg: Config, t: Timers, at: Stamped, name: string): seq<Op<Values>> {
    match at.input
    case SamplePdu(ts, who, payload) => if who == name && name != "" then [Op.Submit(ts, payload)] else []
    case ForgetPdu(_, _, ignore) => if Forgets(at.input, PAYLOAD_SAMPLE, name) then [Op.Forget(ignore)] else []
    case _ => TickOps(cfg, t, at)
  }

  function RateOps(cfg: Config, t: Timers, at: Stamped, name: string): seq<Op<u64>> {
    match at.input
    case RatePdu(ts, who, payload) => if who == name && name != "" then [Op.Submit(ts, payload)] else []
    case ForgetPdu(_, _, ignore) => if Forgets(at.input, PAYLOAD_RATE, name) then [Op.Forget(ignore)] else []
    case _ => TickOps(cfg, t, at)
  }

  function StateOps(cfg: Config, t: Timers, at: Stamped, name: string): seq<StateOp> {
    match at.input
    case StatePdu(ts, who, code, msg) =>
      if who == name && name != "" && msg != "" then [Update(ts, code, msg, at.now)] else []
    case ForgetPdu(_, _, ignore) => if Forgets(at.input, PAYLOAD_STATE, name) then [Drop(ignore)] else []
    case _ => if at.input.Tock? && Due(t.freshness, cfg.freshnessInterval, at.now) then [Check(at.now)] else []
  }

  /** The operations one name sees in a run, in order. */
  function Project<O>(f: (Timers, Stamped) -> seq<O>, cfg: Config, t: Timers, ins: seq<Stamped>): seq<O> {
    if ins == [] then []
    else Project(f, cfg, t, Front(ins)) + f(TimersAfter(cfg, t, Front(ins)), Last(ins))
  }

  // ---------------------------------------------------------------- moving a table

  /**
   Table `was` with stream `log` became table `will` with stream `log'` by feeding `ops(n)` to the
   machine of each name `n`.
   */
  ghost predicate Moved<S, O>(machine: string -> Machine<S, O>, mk: string -> Topic,
                              ops: string -> seq<O>, was: map<string, S>, log: seq<Broadcast>,
                              will: map<string, S>, log': seq<Broadcast>) {
    forall n ::
      var (s, out) := RunOf(machine(n), Lookup(was, n), ops(n));
      Lookup(will, n) == s && About(log', mk(n)) == About(log, mk(n)) + out
  }

  lemma MovedThen<S, O>(machine: string -> Machine<S, O>, mk: string -> Topic,
                        ops1: string -> seq<O>, ops2: string -> seq<O>, ops: string -> seq<O>,
                        a: map<string, S>, log: seq<Broadcast>, b: map<string, S>, log1: seq<Broadcast>,
                        c: map<string, S>, log2: seq<Broadcast>)
    requires Moved(machine, mk, ops1, a, log, b, log1) && Moved(machine, mk, ops2, b, log1, c, log2)
    requires forall n :: ops(n) == ops1(n) + ops2(n)
    ensures Moved(machine, mk, ops, a, log, c, log2)
  {
    forall n ensures var (s, out) := RunOf(machine(n), Lookup(a, n), ops(n));
                     Lookup(c, n) == s && About(log2, mk(n)) == About(log, mk(n)) + out
    {
      RunConcat(machine(n), Lookup(a, n), ops1(n), ops2(n));
      var (_, out1) := RunOf(machine(n), Lookup(a, n), ops1(n));
      var (_, out2) := RunOf(machine(n), Lookup(b, n), ops2(n));
      assert (About(log, mk(n)) + out1) + out2 == About(log, mk(n)) + (out1 + out2);
    }
  }

  ghost predicate Injective(mk: string -> Topic) {
    forall m, n :: mk(m) == mk(n) ==> m == n
  }

  /** No other topic than those `mk` makes saw anything new. */
  ghost predicate OnlyAbout(mk: string -> Topic, log: seq<Broadcast>, log': seq<Broadcast>) {
    forall topic | (forall n :: mk(n) != topic) :: About(log', topic) == About(log, topic)
  }

  lemma MovedNowhere<S, O>(machine: string -> Machine<S, O>, mk: string -> Topic,
                           ops: string -> seq<O>, was: map<string, S>, log: seq<Broadcast>, log': seq<Broadcast>)
    requires forall n :: ops(n) == [] && About(log', mk(n)) == About(log, mk(n))
    ensures Moved(machine, mk, ops, was, log, was, log')
  {
    forall n ensures About(log', mk(n)) == About(log, mk(n)) + [] {
    }
  }

  /** One name took one step. */
  lemma MovedAt<S, O>(machine: string -> Machine<S, O>, mk: string -> Topic, ops: string -> seq<O>,
                      name: string, op: O, was: map<string, S>, log: seq<Broadcast>,
                      will: map<string, S>, out: seq<Broadcast>)
    requires Injective(mk) && ops(name) == [op] && forall n | n != name :: ops(n) == []
    requires forall n | n != name :: Lookup(will, n) == Lookup(was, n)
    requires machine(name)(Lookup(was, name), op) == (Lookup(will, name), out)
    requires forall b | b in out :: TopicOf(b) == mk(name)
    ensures Moved(machine, mk, ops, was, log, will, log + out) && OnlyAbout(mk, log, log + out)
  {
    forall topic
      ensures About(log + out, topic) == if topic
        == mk(name) then About(log, topic) + out else About(log, topic)
    {
      AboutMore(log, out, mk(name), topic);
    }
    RunOne(machine(name), Lookup(was, name), op);
    forall n | n != name ensures About(log + out, mk(n)) == About(log, mk(n)) + [] {
      assert mk(n) != mk(name);
    }
  }

  /** Every entry took the same step, in some order. */
  lemma MovedByWalk<S, O>(machine: string -> Machine<S, O>, mk: string -> Topic, ops: string -> seq<O>,
                          op: O, was: map<string, S>, log: seq<Broadcast>, will: map<string, S>,
                          emits: map<string, seq<Broadcast>>, order: seq<string>)
    requires Injective(mk) && Walked(order, was, {}) && will.Keys == emits.Keys == was.Keys && OwnTopics(emits, mk)
    requires forall n :: ops(n) == [op] && machine(n)(None, op) == (None, [])
    requires forall n | n in was :: machine(n)(Some(was[n]), op) == (Some(will[n]), emits[n])
    ensures Moved(machine, mk, ops, was, log, will, log + Gather(order, emits))
    ensures OnlyAbout(mk, log, log + Gather(order, emits))
  {
    WalkIsPointwise(log, order, was, emits, mk);
    forall n ensures RunOf(machine(n), Lookup(was, n), ops(n)) == (Lookup(will, n), if n in was then emits[n] else []) {
      RunOne(machine(n), Lookup(was, n), op);
    }
  }

  /** Some entries were removed or changed, and nothing was broadcast. */
  lemma MovedSilently<S, O>(machine: string -> Machine<S, O>, mk: string -> Topic, ops: string -> seq<O>,
                            was: map<string, S>, log: seq<Broadcast>, will: map<string, S>)
    requires forall n :: RunOf(machine(n), Lookup(was, n), ops(n)) == (Lookup(will, n), [])
    ensures Moved(machine, mk, ops, was, log, will, log)
  {
  }

  function CounterMachines(cfg: Config): string -> Machine<Counter, Op<i32>> {
    n => CounterMachine(cfg.counterRules, n)
  }

  function CounterTopic(): string -> Topic { n => AboutCounter(n) }

  function CounterFeed(cfg: Config, t: Timers, at: Stamped): string -> seq<Op<i32>> { n => CounterOps(cfg, t, at, n) }

  function SampleMachines(cfg: Config): string -> Machine<Sample, Op<Values>> {
    n => SampleMachine(cfg.sampleRules, n)
  }

  function SampleTopic(): string -> Topic { n => AboutSample(n) }

  function SampleFeed(cfg: Config, t: Timers, at: Stamped): string -> seq<Op<Values>> { n => SampleOps(cfg, t, at, n) }

  function RateMachines(cfg: Config): string -> Machine<Rate, Op<u64>> {
    n => RateMachine(cfg.rateRules, n)
  }

  function RateTopic(): string -> Topic { n => AboutRate(n) }

  function RateFeed(cfg: Config, t: Timers, at: Stamped): string -> seq<Op<u64>> { n => RateOps(cfg, t, at, n) }

  function StateMachines(cfg: Config): string -> Machine<State, StateOp> {
    n => StateMachine(cfg.stateRules, n)
  }

  function StateTopic(): string -> Topic { n => AboutState(n) }

  function StateFeed(cfg: Config, t: Timers, at: Stamped): string -> seq<StateOp> { n => StateOps(cfg, t, at, n) }

  /** The tables, timers and broadcast stream of the kernel at one moment. */
  datatype Db = Db(states: map<string, State>, counters: map<string, Counter>, samples: map<string, Sample>,
                   rates: map<string, Rate>, timers: Timers, log: seq<Broadcast>)

  /** Every kind of table moved, name by name, by what the input means to it. */
  ghost predicate Reacts(cfg: Config, at: Stamped, k: Db, k': Db) {
    && Moved(StateMachines(cfg), StateTopic(), StateFeed(cfg, k.timers, at), k.states, k.log, k'.states, k'.log)
    && Moved(CounterMachines(cfg), CounterTopic(), CounterFeed(cfg, k.timers, at), k.counters, k.log, k'.counters,
             k'.log)
    && Moved(SampleMachines(cfg), SampleTopic(), SampleFeed(cfg, k.timers, at), k.samples, k.log, k'.samples, k'.log)
    && Moved(RateMachines(cfg), RateTopic(), RateFeed(cfg, k.timers, at), k.rates, k.log, k'.rates, k'.log)
    && k'.timers == TimersNext(cfg, k.timers, at)
  }

  // ---------------------------------------------------------------- events and keys in the stream

  /** What an input broadcasts about the events of one name. */
  function EventOut(at: Stamped, name: string): seq<Broadcast> {
    if at.input.EventPdu? && at.input.event.name == name
    then [EventCast(at.input.event.timestamp, name, at.input.event.extra)] else []
  }

  predicate SavesState(cfg: Config, t: Timers, at: Stamped) {
    at.input.Tock? && Due(t.save, cfg.saveInterval, at.now)
  }

  /** Batches that carry every key with a value exactly once, thirty to a batch but for the last. */
  ghost predicate TellsKeys(keys: KeyTable, batches: Batches) {
    && (forall key, value :: (key, value) in Keys.Concat(batches) <==> key in keys && keys[key] == Some(value))
    && Keys.DistinctKeys(Keys.Concat(batches))
    && (forall i | 0 <= i < |batches| :: 1 <= |batches[i]| <= Keys.BATCH)
    && (forall i | 0 <= i < |batches| - 1 :: |batches[i]| == Keys.BATCH)
  }

  function KeysCasts(batches: Batches): seq<Broadcast> {
    seq(|batches|, i requires 0 <= i < |batches| => SetKeysCast(batches[i]))
  }

  /** What one input adds to the streams about events and keys; `told` are the batches of a savestate pass. */
  ghost predicate Heard(cfg: Config, t: Timers, keys: KeyTable, at: Stamped,
                        told: Batches, log: seq<Broadcast>, log': seq<Broadcast>) {
    && (forall n :: About(log', AboutEvent(n)) == About(log, AboutEvent(n)) + EventOut(at, n))
    && About(log', AboutKeys) == About(log, AboutKeys) + KeysCasts(told)
    && (if SavesState(cfg, t, at) then TellsKeys(keys, told) else told == [])
  }

  /** Neither stream changed. */
  ghost predicate Unheard(log: seq<Broadcast>, log': seq<Broadcast>) {
    forall topic: Topic | topic.AboutEvent? || topic.AboutKeys? :: About(log', topic) == About(log, topic)
  }

  lemma UnheardElsewhere(mk: string -> Topic, log: seq<Broadcast>, log': seq<Broadcast>)
    requires OnlyAbout(mk, log, log') && forall n :: !mk(n).AboutEvent? && !mk(n).AboutKeys?
    ensures Unheard(log, log')
  {
  }

  lemma HeardNothing(cfg: Config, t: Timers, keys: KeyTable, at: Stamped,
                     log: seq<Broadcast>, log': seq<Broadcast>)
    requires !at.input.EventPdu? && !SavesState(cfg, t, at) && Unheard(log, log')
    ensures Heard(cfg, t, keys, at, [], log, log')
  {
    hide About;
    forall n ensures About(log', AboutEvent(n)) == About(log, AboutEvent(n)) + EventOut(at, n) {
      assert About(log, AboutEvent(n)) + [] == About(log, AboutEvent(n));
    }
    assert About(log, AboutKeys) + KeysCasts([]) == About(log, AboutKeys);
  }

  lemma HeardEvent(cfg: Config, t: Timers, keys: KeyTable, at: Stamped, log: seq<Broadcast>)
    requires at.input.EventPdu?
    ensures var ev := at.input.event;
            Heard(cfg, t, keys, at, [], log, log + [EventCast(ev.timestamp, ev.name, ev.extra)])
  {
    hide About;
    var ev := at.input.event;
    var cast := EventCast(ev.timestamp, ev.name, ev.extra);
    forall n ensures About(log + [cast], AboutEvent(n)) == About(log, AboutEvent(n)) + EventOut(at, n) {
      AboutMore(log, [cast], AboutEvent(ev.name), AboutEvent(n));
      assert About(log, AboutEvent(n)) + [] == About(log, AboutEvent(n));
    }
    AboutMore(log, [cast], AboutEvent(ev.name), AboutKeys);
    assert About(log, AboutKeys) + KeysCasts([]) == About(log, AboutKeys);
  }

  lemma HeardKeys(cfg: Config, t: Timers, keys: KeyTable, at: Stamped,
                  told: Batches, log: seq<Broadcast>, log1: seq<Broadcast>)
    requires SavesState(cfg, t, at) && TellsKeys(keys, told) && Unheard(log, log1)
    ensures Heard(cfg, t, keys, at, told, log, log1 + KeysCasts(told))
  {
    hide About, TellsKeys;
    forall n ensures About(log1 + KeysCasts(told), AboutEvent(n)) == About(log, AboutEvent(n)) + EventOut(at, n) {
      AboutMore(log1, KeysCasts(told), AboutKeys, AboutEvent(n));
      assert About(log, AboutEvent(n)) + [] == About(log, AboutEvent(n));
    }
    AboutMore(log1, KeysCasts(told), AboutKeys, AboutKeys);
  }

  function EventCasts(ins: seq<Stamped>, name: string): seq<Broadcast> {
    if ins == [] then [] else EventCasts(Front(ins), name) + EventOut(Last(ins), name)
  }

  /**
   What a whole run adds to the streams about events and keys: every event once, in order, and for each
   input that is a savestate pass the batches `told[i]` that carry the key table of that moment.
   */
  ghost predicate HeardAll(cfg: Config, t: Timers, keys: KeyTable, ins: seq<Stamped>,
                           told: seq<Batches>, log: seq<Broadcast>, log': seq<Broadcast>) {
    && |told| == |ins|
    && (forall n :: About(log', AboutEvent(n)) == About(log, AboutEvent(n)) + EventCasts(ins, n))
    && About(log', AboutKeys) == About(log, AboutKeys) + KeysCasts(Keys.Concat(told))
    && PassesTell(cfg, t, keys, ins, told)
  }

  /** Each savestate pass tells the key table of its moment, and no other input tells any. */
  ghost predicate PassesTell(cfg: Config, t: Timers, keys: KeyTable, ins: seq<Stamped>, told: seq<Batches>)
    requires |told| == |ins|
  {
    forall i | 0 <= i < |ins| ::
      if SavesState(cfg, TimersAfter(cfg, t, ins[..i]), ins[i])
      then TellsKeys(KeysAfter(keys, ins[..i]), told[i]) else told[i] == []
  }

  lemma HeardNone(cfg: Config, t: Timers, keys: KeyTable, log: seq<Broadcast>)
    ensures HeardAll(cfg, t, keys, [], [], log, log)
  {
    hide About;
    forall n ensures About(log, AboutEvent(n)) == About(log, AboutEvent(n)) + EventCasts([], n) {
      assert About(log, AboutEvent(n)) + [] == About(log, AboutEvent(n));
    }
    assert KeysCasts(Keys.Concat([])) == [];
    assert About(log, AboutKeys) + [] == About(log, AboutKeys);
  }

  lemma HeardThen(cfg: Config, t: Timers, keys: KeyTable, ins: seq<Stamped>, at: Stamped,
                  told: seq<Batches>, more: Batches,
                  log: seq<Broadcast>, log1: seq<Broadcast>, log2: seq<Broadcast>)
    requires HeardAll(cfg, t, keys, ins, told, log, log1)
    requires Heard(cfg, TimersAfter(cfg, t, ins), KeysAfter(keys, ins), at, more, log1, log2)
    ensures HeardAll(cfg, t, keys, ins + [at], told + [more], log, log2)
  {
    hide About, TellsKeys, EventOut, TimersAfter, KeysAfter, SavesState, PassesTell;
    var all := ins + [at];
    assert Front(all) == ins && Last(all) == at;
    forall n ensures About(log2, AboutEvent(n)) == About(log, AboutEvent(n)) + EventCasts(all, n) {
      assert (About(log, AboutEvent(n)) + EventCasts(ins, n)) + EventOut(at, n)
          == About(log, AboutEvent(n)) + (EventCasts(ins, n) + EventOut(at, n));
    }
    Keys.ConcatAppend(told, more);
    assert KeysCasts(Keys.Concat(told) + more) == KeysCasts(Keys.Concat(told)) + KeysCasts(more);
    assert (About(log, AboutKeys) + KeysCasts(Keys.Concat(told))) + KeysCasts(more)
        == About(log, AboutKeys) + (KeysCasts(Keys.Concat(told)) + KeysCasts(more));
    PassesThen(cfg, t, keys, ins, at, told, more);
  }

  lemma PassesThen(cfg: Config, t: Timers, keys: KeyTable, ins: seq<Stamped>, at: Stamped,
                   told: seq<Batches>, more: Batches)
    requires |told| == |ins| && PassesTell(cfg, t, keys, ins, told)
    requires if SavesState(cfg, TimersAfter(cfg, t, ins), at) then TellsKeys(KeysAfter(keys, ins), more) else more == []
    ensures PassesTell(cfg, t, keys, ins + [at], told + [more])
  {
    hide TellsKeys, TimersAfter, KeysAfter, SavesState;
    var all, tolds := ins + [at], told + [more];
    forall i | 0 <= i < |all|
      ensures if SavesState(cfg, TimersAfter(cfg, t, all[..i]), all[i])
              then TellsKeys(KeysAfter(keys, all[..i]), tolds[i]) else tolds[i] == []
    {
      if i < |ins| {
        assert all[..i] == ins[..i] && all[i] == ins[i] && tolds[i] == told[i];
      } else {
        assert all[..i] == ins && all[i] == at && tolds[i] == more;
      }
    }
  }

  lemma StreamSame(mk: string -> Topic, log: seq<Broadcast>)
    ensures OnlyAbout(mk, log, log)
  {
  }

  lemma GatherNone(emits: map<string, seq<Broadcast>>)
    ensures Gather([], emits) == []
  {
  }

  lemma DataAllNext(s: Stats, vs: seq<real>, i: nat)
    requires i < |vs|
    ensures DataAll(s, vs[..i + 1]) == Data(DataAll(s, vs[..i]), vs[i])
  {
    assert vs[..i + 1][..i] == vs[..i];
  }

  /** The loop over the values of a SAMPLE PDU. */
  method SampleAll(s: Stats, vs: seq<real>) returns (r: Stats)
    ensures r == DataAll(s, vs)
  {
    hide Data;
    r := s;
    for i := 0 to |vs|
      invariant r == DataAll(s, vs[..i])
    {
      DataAllNext(s, vs, i);
      r := Data(r, vs[i]);
    }
    assert vs[..|vs|] == vs;
  }

  /** The loop over the regex rules in `find_state`, `find_counter`, `find_sample` and `find_rate`. */
  method FirstRule<T>(rules: seq<Rule<T>>, name: string) returns (r: Option<T>)
    ensures r == FirstMatch(rules, name)
    ensures r.Some? ==> exists i :: Decides(rules, name, i) && r.value == rules[i].target
    ensures r.None? ==> forall i | 0 <= i < |rules| :: !rules[i].matches(name)
  {
    FirstMatchDecides(rules, name);
    for i := 0 to |rules|
      invariant forall j | 0 <= j < i :: !rules[j].matches(name)
    {
      if rules[i].matches(name) {
        assert Decides(rules, name, i);
        return Some(rules[i].target);
      }
    }
    return None;
  }

  /** The key table after setting the pairs in order. */
  function SetPairs(keys: KeyTable, pairs: seq<(string, string)>): KeyTable {
    if pairs == [] then keys else SetPairs(keys, Front(pairs))[Last(pairs).0 := Some(Last(pairs).1)]
  }

  /** The key table after deleting the names in order. */
  function DelNames(keys: KeyTable, names: seq<string>): KeyTable {
    if names == [] then keys else DelNames(keys, Front(names))[Last(names) := None]
  }

  /** What an input does to the key table. */
  function KeysNext(keys: KeyTable, input: Input): KeyTable {
    match input
    case SetKeysPdu(pairs) => SetPairs(keys, pairs)
    case DelKeysPdu(names) => DelNames(keys, names)
    case _ => keys
  }

  /** What an input does to the event buffer. */
  function EventsNext(cfg: Config, events: seq<Event>, input: Input): seq<Event> {
    if input.EventPdu? then Buffered(events, input.event, cfg.eventsMax, cfg.eventsKeep) else events
  }

  /** The stream of a topic family did not change. */
  ghost predicate Quiet(mk: string -> Topic, log: seq<Broadcast>, log': seq<Broadcast>) {
    forall n :: About(log', mk(n)) == About(log, mk(n))
  }

  lemma QuietElsewhere(mk: string -> Topic, other: string -> Topic, log: seq<Broadcast>, log': seq<Broadcast>)
    requires OnlyAbout(mk, log, log') && forall m, n :: mk(m) != other(n)
    ensures Quiet(other, log, log')
  {
    forall n ensures About(log', other(n)) == About(log, other(n)) {
      assert forall m :: mk(m) != other(n);
    }
  }

  /** Broadcasts about something else, before or after, do not matter to a table. */
  lemma MovedAround<S, O>(machine: string -> Machine<S, O>, mk: string -> Topic, ops: string -> seq<O>,
                          was: map<string, S>, will: map<string, S>,
                          log0: seq<Broadcast>, log1: seq<Broadcast>, log2: seq<Broadcast>, log3: seq<Broadcast>)
    requires Moved(machine, mk, ops, was, log1, will, log2)
    requires Quiet(mk, log0, log1) && Quiet(mk, log2, log3)
    ensures Moved(machine, mk, ops, was, log0, will, log3)
  {
    forall n ensures About(log0, mk(n)) == About(log1, mk(n)) && About(log3, mk(n)) == About(log2, mk(n)) {
    }
  }

  lemma TicksCompose(cfg: Config, t: Timers, at: Stamped, c: map<string, Counter>, c': map<string, Counter>,
                     x: map<string, Sample>, x': map<string, Sample>, r: map<string, Rate>, r': map<string, Rate>,
                     log0: seq<Broadcast>, log1: seq<Broadcast>, log2: seq<Broadcast>, log3: seq<Broadcast>)
    requires Moved(CounterMachines(cfg), CounterTopic(), CounterFeed(cfg, t, at), c, log0, c',
                   log1) && OnlyAbout(CounterTopic(), log0, log1)
    requires Moved(SampleMachines(cfg), SampleTopic(), SampleFeed(cfg, t, at), x, log1, x',
                   log2) && OnlyAbout(SampleTopic(), log1, log2)
    requires Moved(RateMachines(cfg), RateTopic(), RateFeed(cfg, t, at), r, log2, r', log3)
    requires OnlyAbout(RateTopic(), log2, log3)
    ensures Moved(CounterMachines(cfg), CounterTopic(), CounterFeed(cfg, t, at), c, log0, c', log3)
    ensures Moved(SampleMachines(cfg), SampleTopic(), SampleFeed(cfg, t, at), x, log0, x', log3)
    ensures Moved(RateMachines(cfg), RateTopic(), RateFeed(cfg, t, at), r, log0, r', log3)
    ensures Quiet(StateTopic(), log0, log3)
  {
    hide Moved, OnlyAbout;
    QuietElsewhere(CounterTopic(), SampleTopic(), log0, log1);
    QuietElsewhere(CounterTopic(), RateTopic(), log0, log1);
    QuietElsewhere(CounterTopic(), StateTopic(), log0, log1);
    QuietElsewhere(SampleTopic(), CounterTopic(), log1, log2);
    QuietElsewhere(SampleTopic(), RateTopic(), log1, log2);
    QuietElsewhere(SampleTopic(), StateTopic(), log1, log2);
    QuietElsewhere(RateTopic(), CounterTopic(), log2, log3);
    QuietElsewhere(RateTopic(), SampleTopic(), log2, log3);
    QuietElsewhere(RateTopic(), StateTopic(), log2, log3);
    MovedAround(CounterMachines(cfg), CounterTopic(), CounterFeed(cfg, t, at), c, c', log0, log0, log1, log3);
    MovedAround(SampleMachines(cfg), SampleTopic(), SampleFeed(cfg, t, at), x, x', log0, log1, log2, log3);
    MovedAround(RateMachines(cfg), RateTopic(), RateFeed(cfg, t, at), r, r', log0, log2, log3, log3);
  }

  lemma TicksIdle(cfg: Config, t: Timers, at: Stamped, c: map<string, Counter>, x: map<string, Sample>, r: map<string,
                  Rate>, log: seq<Broadcast>)
    requires at.input.Tock? && !Due(t.tick, cfg.tickInterval, at.now)
    ensures Moved(CounterMachines(cfg), CounterTopic(), CounterFeed(cfg, t, at), c, log, c, log)
    ensures Moved(SampleMachines(cfg), SampleTopic(), SampleFeed(cfg, t, at), x, log, x, log)
    ensures Moved(RateMachines(cfg), RateTopic(), RateFeed(cfg, t, at), r, log, r, log)
    ensures Quiet(StateTopic(), log, log)
  {
    hide Moved;
    MovedNowhere(CounterMachines(cfg), CounterTopic(), CounterFeed(cfg, t, at), c, log, log);
    MovedNowhere(SampleMachines(cfg), SampleTopic(), SampleFeed(cfg, t, at), x, log, log);
    MovedNowhere(RateMachines(cfg), RateTopic(), RateFeed(cfg, t, at), r, log, log);
  }

  lemma StateMoves(cfg: Config, t: Timers, at: Stamped, was: map<string, State>, log: seq<Broadcast>, will: map<string,
                   State>, out: seq<Broadcast>)
    requires at.input.StatePdu? && at.input.sname != "" && at.input.msg != ""
    requires forall n | n != at.input.sname :: Lookup(will, n) == Lookup(was, n)
    requires (Lookup(will, at.input.sname), out) ==
             StateStep(cfg.stateRules, at.input.sname, Lookup(was, at.input.sname),
                       Update(at.input.sts, at.input.code, at.input.msg, at.now))
    ensures Moved(StateMachines(cfg), StateTopic(), StateFeed(cfg, t, at), was, log, will, log + out)
    ensures OnlyAbout(StateTopic(), log, log + out)
  {
    hide Moved, OnlyAbout, StateStep;
    var op := Update(at.input.sts, at.input.code, at.input.msg, at.now);
    StepAnnouncesOk(cfg.stateRules, at.input.sname, Lookup(was, at.input.sname), op);
    MovedAt(StateMachines(cfg), StateTopic(), StateFeed(cfg, t, at), at.input.sname, op, was, log, will, out);
  }

  lemma TockCompose(cfg: Config, t: Timers, at: Stamped, k: Db, k': Db, log1: seq<Broadcast>, log2: seq<Broadcast>)
    requires Moved(CounterMachines(cfg), CounterTopic(), CounterFeed(cfg, t, at), k.counters, k.log, k'.counters, log1)
    requires Moved(SampleMachines(cfg), SampleTopic(), SampleFeed(cfg, t, at), k.samples, k.log, k'.samples, log1)
    requires Moved(RateMachines(cfg), RateTopic(), RateFeed(cfg, t, at), k.rates, k.log, k'.rates, log1)
    requires Quiet(StateTopic(), k.log, log1)
    requires Moved(StateMachines(cfg), StateTopic(), StateFeed(cfg, t, at), k.states, log1, k'.states, log2)
    requires OnlyAbout(StateTopic(), log1, log2)
    requires forall topic | topic != AboutKeys :: About(k'.log, topic) == About(log2, topic)
    requires t == k.timers && k'.timers == TimersNext(cfg, t, at)
    ensures Reacts(cfg, at, k, k')
  {
    hide Moved, OnlyAbout, About;
    QuietElsewhere(StateTopic(), CounterTopic(), log1, log2);
    QuietElsewhere(StateTopic(), SampleTopic(), log1, log2);
    QuietElsewhere(StateTopic(), RateTopic(), log1, log2);
    MovedAround(CounterMachines(cfg), CounterTopic(), CounterFeed(cfg, t, at), k.counters, k'.counters, k.log, k.log,
                log1, k'.log);
    MovedAround(SampleMachines(cfg), SampleTopic(), SampleFeed(cfg, t, at), k.samples, k'.samples, k.log, k.log, log1,
                k'.log);
    MovedAround(RateMachines(cfg), RateTopic(), RateFeed(cfg, t, at), k.rates, k'.rates, k.log, k.log, log1, k'.log);
    MovedAround(StateMachines(cfg), StateTopic(), StateFeed(cfg, t, at), k.states, k'.states, k.log, log1, log2,
                k'.log);
  }

  lemma KeysOnly(log: seq<Broadcast>, log': seq<Broadcast>, told: Batches)
    requires log' == log + KeysCasts(told) || log' == log
    ensures forall topic | topic != AboutKeys :: About(log', topic) == About(log, topic)
  {
    hide About;
    forall topic | topic != AboutKeys ensures About(log + KeysCasts(told), topic) == About(log, topic) {
      AboutMore(log, KeysCasts(told), AboutKeys, topic);
    }
  }

  /** A walk over the key table, in some order. */
  method WalkKeys(keys: KeyTable) returns (entries: Keys.Entries)
    ensures Keys.DistinctKeys(entries)
    ensures forall e :: e in entries <==> e.0 in keys && keys[e.0] == e.1
  {
    entries := [];
    var left := keys.Keys;
    while left != {}
      invariant left <= keys.Keys && Keys.DistinctKeys(entries)
      invariant forall e :: e in entries <==> e.0 in keys && e.0 !in left && keys[e.0] == e.1
    {
      var key :| key in left;
      forall i | 0 <= i < |entries| ensures entries[i].0 != key {
        assert entries[i] in entries;
      }
      entries, left := entries + [(key, keys[key])], left - {key};
    }
  }

  /** A PDU that is about no table. */
  lemma Unmoved(cfg: Config, at: Stamped, k: Db, log': seq<Broadcast>)
    requires || at.input.EventPdu? || at.input.SetKeysPdu? || at.input.DelKeysPdu?
             || (at.input.ForgetPdu? && at.input.pattern.None?)
    requires forall topic: Topic | !topic.AboutEvent? :: About(log', topic) == About(k.log, topic)
    ensures Reacts(cfg, at, k, k.(log := log'))
  {
    hide Moved, About;
    MovedNowhere(StateMachines(cfg), StateTopic(), StateFeed(cfg, k.timers, at), k.states, k.log, log');
    MovedNowhere(CounterMachines(cfg), CounterTopic(), CounterFeed(cfg, k.timers, at), k.counters, k.log, log');
    MovedNowhere(SampleMachines(cfg), SampleTopic(), SampleFeed(cfg, k.timers, at), k.samples, k.log, log');
    MovedNowhere(RateMachines(cfg), RateTopic(), RateFeed(cfg, k.timers, at), k.rates, k.log, log');
  }

  /** A table that an input is not about stays where it was, whatever the input broadcast about another. */
  lemma Bystander<S, O>(machine: string -> Machine<S, O>, mk: string -> Topic, ops: string -> seq<O>, was: map<string,
                        S>,
                        log: seq<Broadcast>, log': seq<Broadcast>, moved: string -> Topic)
    requires OnlyAbout(moved, log, log') && (forall m, n :: moved(m) != mk(n)) && forall n :: ops(n) == []
    ensures Moved(machine, mk, ops, was, log, was, log')
  {
    hide Moved, OnlyAbout, About;
    QuietElsewhere(moved, mk, log, log');
    MovedNowhere(machine, mk, ops, was, log, log');
  }

  /** A submission that goes to some table. */
  predicate IsSubmission(input: Input) {
    input.StatePdu? || input.CounterPdu? || input.SamplePdu? || input.RatePdu?
  }

  lemma StatesStay(cfg: Config, at: Stamped, k: Db, log': seq<Broadcast>, mk: string -> Topic)
    requires IsSubmission(at.input) && !at.input.StatePdu?
    requires OnlyAbout(mk, k.log, log') && forall m, n :: mk(m) != AboutState(n)
    ensures Moved(StateMachines(cfg), StateTopic(), StateFeed(cfg, k.timers, at), k.states, k.log, k.states, log')
  {
    hide Moved, OnlyAbout, About;
    Bystander(StateMachines(cfg), StateTopic(), StateFeed(cfg, k.timers, at), k.states, k.log, log', mk);
  }

  lemma CountersStay(cfg: Config, at: Stamped, k: Db, log': seq<Broadcast>, mk: string -> Topic)
    requires IsSubmission(at.input) && !at.input.CounterPdu?
    requires OnlyAbout(mk, k.log, log') && forall m, n :: mk(m) != AboutCounter(n)
    ensures Moved(CounterMachines(cfg), CounterTopic(), CounterFeed(cfg, k.timers, at),
                  k.counters, k.log, k.counters, log')
  {
    hide Moved, OnlyAbout, About;
    Bystander(CounterMachines(cfg), CounterTopic(), CounterFeed(cfg, k.timers, at), k.counters, k.log, log', mk);
  }

  lemma SamplesStay(cfg: Config, at: Stamped, k: Db, log': seq<Broadcast>, mk: string -> Topic)
    requires IsSubmission(at.input) && !at.input.SamplePdu?
    requires OnlyAbout(mk, k.log, log') && forall m, n :: mk(m) != AboutSample(n)
    ensures Moved(SampleMachines(cfg), SampleTopic(), SampleFeed(cfg, k.timers, at), k.samples, k.log, k.samples, log')
  {
    hide Moved, OnlyAbout, About;
    Bystander(SampleMachines(cfg), SampleTopic(), SampleFeed(cfg, k.timers, at), k.samples, k.log, log', mk);
  }

  lemma RatesStay(cfg: Config, at: Stamped, k: Db, log': seq<Broadcast>, mk: string -> Topic)
    requires IsSubmission(at.input) && !at.input.RatePdu?
    requires OnlyAbout(mk, k.log, log') && forall m, n :: mk(m) != AboutRate(n)
    ensures Moved(RateMachines(cfg), RateTopic(), RateFeed(cfg, k.timers, at), k.rates, k.log, k.rates, log')
  {
    hide Moved, OnlyAbout, About;
    Bystander(RateMachines(cfg), RateTopic(), RateFeed(cfg, k.timers, at), k.rates, k.log, log', mk);
  }

  /** A STATE moves its table, leaves the others where they were, and says nothing about events or keys. */
  lemma StateMoved(cfg: Config, at: Stamped, k: Db, k': Db, keys: KeyTable)
    requires at.input.StatePdu? && k' == k.(states := k'.states, log := k'.log)
    requires OnlyAbout(StateTopic(), k.log, k'.log)
    requires Moved(StateMachines(cfg), StateTopic(), StateFeed(cfg, k.timers, at), k.states, k.log, k'.states, k'.log)
    ensures Reacts(cfg, at, k, k') && Heard(cfg, k.timers, keys, at, [], k.log, k'.log)
  {
    hide Moved, OnlyAbout, About, Heard;
    CountersStay(cfg, at, k, k'.log, StateTopic());
    SamplesStay(cfg, at, k, k'.log, StateTopic());
    RatesStay(cfg, at, k, k'.log, StateTopic());
    UnheardElsewhere(StateTopic(), k.log, k'.log);
    HeardNothing(cfg, k.timers, keys, at, k.log, k'.log);
  }

  /** A COUNTER moves its table, leaves the others where they were, and says nothing about events or keys. */
  lemma CounterMoved(cfg: Config, at: Stamped, k: Db, k': Db, keys: KeyTable)
    requires at.input.CounterPdu? && k' == k.(counters := k'.counters, log := k'.log)
    requires OnlyAbout(CounterTopic(), k.log, k'.log)
    requires Moved(CounterMachines(cfg), CounterTopic(), CounterFeed(cfg, k.timers, at),
                   k.counters, k.log, k'.counters, k'.log)
    ensures Reacts(cfg, at, k, k') && Heard(cfg, k.timers, keys, at, [], k.log, k'.log)
  {
    hide Moved, OnlyAbout, About, Heard;
    StatesStay(cfg, at, k, k'.log, CounterTopic());
    SamplesStay(cfg, at, k, k'.log, CounterTopic());
    RatesStay(cfg, at, k, k'.log, CounterTopic());
    UnheardElsewhere(CounterTopic(), k.log, k'.log);
    HeardNothing(cfg, k.timers, keys, at, k.log, k'.log);
  }

  /** A SAMPLE moves its table, leaves the others where they were, and says nothing about events or keys. */
  lemma SampleMoved(cfg: Config, at: Stamped, k: Db, k': Db, keys: KeyTable)
    requires at.input.SamplePdu? && k' == k.(samples := k'.samples, log := k'.log)
    requires OnlyAbout(SampleTopic(), k.log, k'.log)
    requires Moved(SampleMachines(cfg), SampleTopic(), SampleFeed(cfg, k.timers, at),
                   k.samples, k.log, k'.samples, k'.log)
    ensures Reacts(cfg, at, k, k') && Heard(cfg, k.timers, keys, at, [], k.log, k'.log)
  {
    hide Moved, OnlyAbout, About, Heard;
    StatesStay(cfg, at, k, k'.log, SampleTopic());
    CountersStay(cfg, at, k, k'.log, SampleTopic());
    RatesStay(cfg, at, k, k'.log, SampleTopic());
    UnheardElsewhere(SampleTopic(), k.log, k'.log);
    HeardNothing(cfg, k.timers, keys, at, k.log, k'.log);
  }

  /** A RATE moves its table, leaves the others where they were, and says nothing about events or keys. */
  lemma RateMoved(cfg: Config, at: Stamped, k: Db, k': Db, keys: KeyTable)
    requires at.input.RatePdu? && k' == k.(rates := k'.rates, log := k'.log)
    requires OnlyAbout(RateTopic(), k.log, k'.log)
    requires Moved(RateMachines(cfg), RateTopic(), RateFeed(cfg, k.timers, at), k.rates, k.log, k'.rates, k'.log)
    ensures Reacts(cfg, at, k, k') && Heard(cfg, k.timers, keys, at, [], k.log, k'.log)
  {
    hide Moved, OnlyAbout, About, Heard;
    StatesStay(cfg, at, k, k'.log, RateTopic());
    CountersStay(cfg, at, k, k'.log, RateTopic());
    SamplesStay(cfg, at, k, k'.log, RateTopic());
    UnheardElsewhere(RateTopic(), k.log, k'.log);
    HeardNothing(cfg, k.timers, keys, at, k.log, k'.log);
  }

  lemma EventMoved(cfg: Config, at: Stamped, k: Db, keys: KeyTable)
    requires at.input.EventPdu?
    ensures var ev := at.input.event;
            var log' := k.log + [EventCast(ev.timestamp, ev.name, ev.extra)];
            Reacts(cfg, at, k, k.(log := log')) && Heard(cfg, k.timers, keys, at, [], k.log, log')
  {
    hide About, Reacts, Heard;
    var ev := at.input.event;
    var cast := EventCast(ev.timestamp, ev.name, ev.extra);
    forall topic: Topic | !topic.AboutEvent? ensures About(k.log + [cast], topic) == About(k.log, topic) {
      AboutMore(k.log, [cast], AboutEvent(ev.name), topic);
    }
    Unmoved(cfg, at, k, k.log + [cast]);
    HeardEvent(cfg, k.timers, keys, at, k.log);
  }

  function CounterShare(cfg: Config, n: string): (Timers, Stamped) -> seq<Op<i32>> {
    (t, at) => CounterOps(cfg, t, at, n)
  }

  /** The operations each counter sees in a run. */
  function CounterHistory(cfg: Config, t: Timers, ins: seq<Stamped>): string -> seq<Op<i32>> {
    n => Project(CounterShare(cfg, n), cfg, t, ins)
  }

  function SampleShare(cfg: Config, n: string): (Timers, Stamped) -> seq<Op<Values>> {
    (t, at) => SampleOps(cfg, t, at, n)
  }

  /** The operations each sample sees in a run. */
  function SampleHistory(cfg: Config, t: Timers, ins: seq<Stamped>): string -> seq<Op<Values>> {
    n => Project(SampleShare(cfg, n), cfg, t, ins)
  }

  function RateShare(cfg: Config, n: string): (Timers, Stamped) -> seq<Op<u64>> { (t, at) => RateOps(cfg, t, at, n) }

  /** The operations each rate sees in a run. */
  function RateHistory(cfg: Config, t: Timers, ins: seq<Stamped>): string -> seq<Op<u64>> {
    n => Project(RateShare(cfg, n), cfg, t, ins)
  }

  function StateShare(cfg: Config, n: string): (Timers, Stamped) -> seq<StateOp> { (t, at) => StateOps(cfg, t, at, n) }

  /** The operations each state sees in a run. */
  function StateHistory(cfg: Config, t: Timers, ins: seq<Stamped>): string -> seq<StateOp> {
    n => Project(StateShare(cfg, n), cfg, t, ins)
  }

  /** A whole run moved every table, name by name, through the operations of that name. */
  ghost predicate Ran(cfg: Config, ins: seq<Stamped>, k: Db, k': Db) {
    && Moved(StateMachines(cfg), StateTopic(), StateHistory(cfg, k.timers, ins), k.states, k.log, k'.states, k'.log)
    && Moved(CounterMachines(cfg), CounterTopic(), CounterHistory(cfg, k.timers, ins), k.counters, k.log, k'.counters,
             k'.log)
    && Moved(SampleMachines(cfg), SampleTopic(), SampleHistory(cfg, k.timers, ins), k.samples, k.log, k'.samples,
             k'.log)
    && Moved(RateMachines(cfg), RateTopic(), RateHistory(cfg, k.timers, ins), k.rates, k.log, k'.rates, k'.log)
    && k'.timers == TimersAfter(cfg, k.timers, ins)
  }

  lemma RanNowhere(cfg: Config, k: Db)
    ensures Ran(cfg, [], k, k)
  {
    hide Moved;
    MovedNowhere(StateMachines(cfg), StateTopic(), StateHistory(cfg, k.timers, []), k.states, k.log, k.log);
    MovedNowhere(CounterMachines(cfg), CounterTopic(), CounterHistory(cfg, k.timers, []), k.counters, k.log, k.log);
    MovedNowhere(SampleMachines(cfg), SampleTopic(), SampleHistory(cfg, k.timers, []), k.samples, k.log, k.log);
    MovedNowhere(RateMachines(cfg), RateTopic(), RateHistory(cfg, k.timers, []), k.rates, k.log, k.log);
  }

  /** One more input extends a run. */
  lemma RanThen(cfg: Config, ins: seq<Stamped>, at: Stamped, k: Db, k1: Db, k2: Db)
    requires Ran(cfg, ins, k, k1) && Reacts(cfg, at, k1, k2)
    ensures Ran(cfg, ins + [at], k, k2)
  {
    hide Moved;
    var all := ins + [at];
    assert Front(all) == ins && Last(all) == at;
    MovedThen(StateMachines(cfg), StateTopic(), StateHistory(cfg, k.timers, ins), StateFeed(cfg, k1.timers, at),
              StateHistory(cfg, k.timers, all), k.states, k.log, k1.states, k1.log, k2.states, k2.log);
    MovedThen(CounterMachines(cfg), CounterTopic(), CounterHistory(cfg, k.timers, ins), CounterFeed(cfg, k1.timers, at),
              CounterHistory(cfg, k.timers, all), k.counters, k.log, k1.counters, k1.log, k2.counters, k2.log);
    MovedThen(SampleMachines(cfg), SampleTopic(), SampleHistory(cfg, k.timers, ins), SampleFeed(cfg, k1.timers, at),
              SampleHistory(cfg, k.timers, all), k.samples, k.log, k1.samples, k1.log, k2.samples, k2.log);
    MovedThen(RateMachines(cfg), RateTopic(), RateHistory(cfg, k.timers, ins), RateFeed(cfg, k1.timers, at),
              RateHistory(cfg, k.timers, all), k.rates, k.log, k1.rates, k1.log, k2.rates, k2.log);
  }

  /** The event buffer after a run. */
  function EventsAfter(cfg: Config, events: seq<Event>, ins: seq<Stamped>): seq<Event> {
    if ins == [] then events else EventsNext(cfg, EventsAfter(cfg, events, Front(ins)), Last(ins).input)
  }

  /** The key table after a run. */
  function KeysAfter(keys: KeyTable, ins: seq<Stamped>): KeyTable {
    if ins == [] then keys else KeysNext(KeysAfter(keys, Front(ins)), Last(ins).input)
  }

  lemma CounterTickTopics(name: string, c: Counter, cutoff: int)
    ensures forall b | b in CounterTick(name, c, cutoff).1 :: TopicOf(b) == AboutCounter(name)
  {
  }

  lemma CountersTicked(cfg: Config, t: Timers, at: Stamped, cutoff: int, was: map<string, Counter>, log: seq<Broadcast>,
                       order: seq<string>)
    requires at.input.Tock? && Due(t.tick, cfg.tickInterval, at.now) && cutoff == at.now - cfg.grace
    requires Walked(order, was, {})
    ensures var will := map n | n in was :: CounterTick(n, was[n], cutoff).0;
            var log' := log + Gather(order, map n | n in was :: CounterTick(n, was[n], cutoff).1);
            && Moved(CounterMachines(cfg), CounterTopic(), CounterFeed(cfg, t, at), was, log, will, log')
            && OnlyAbout(CounterTopic(), log, log')
  {
    hide Moved, OnlyAbout, Walked, Gather, CounterTick;
    var will := map n | n in was :: CounterTick(n, was[n], cutoff).0;
    var emits := map n | n in was :: CounterTick(n, was[n], cutoff).1;
    forall n, b | n in emits && b in emits[n] ensures TopicOf(b) == CounterTopic()(n) {
      CounterTickTopics(n, was[n], cutoff);
    }
    MovedByWalk(CounterMachines(cfg), CounterTopic(), CounterFeed(cfg, t, at), Op.Tick(cutoff), was, log, will, emits,
                order);
  }

  lemma SampleTickTopics(name: string, x: Sample, cutoff: int)
    ensures forall b | b in SampleTick(name, x, cutoff).1 :: TopicOf(b) == AboutSample(name)
  {
  }

  lemma SamplesTicked(cfg: Config, t: Timers, at: Stamped, cutoff: int, was: map<string, Sample>, log: seq<Broadcast>,
                      order: seq<string>)
    requires at.input.Tock? && Due(t.tick, cfg.tickInterval, at.now) && cutoff == at.now - cfg.grace
    requires Walked(order, was, {})
    ensures var will := map n | n in was :: SampleTick(n, was[n], cutoff).0;
            var log' := log + Gather(order, map n | n in was :: SampleTick(n, was[n], cutoff).1);
            && Moved(SampleMachines(cfg), SampleTopic(), SampleFeed(cfg, t, at), was, log, will, log')
            && OnlyAbout(SampleTopic(), log, log')
  {
    hide Moved, OnlyAbout, Walked, Gather, SampleTick;
    var will := map n | n in was :: SampleTick(n, was[n], cutoff).0;
    var emits := map n | n in was :: SampleTick(n, was[n], cutoff).1;
    forall n, b | n in emits && b in emits[n] ensures TopicOf(b) == SampleTopic()(n) {
      SampleTickTopics(n, was[n], cutoff);
    }
    MovedByWalk(SampleMachines(cfg), SampleTopic(), SampleFeed(cfg, t, at), Op.Tick(cutoff), was, log, will, emits,
                order);
  }

  lemma RateTickTopics(name: string, r: Rate, cutoff: int)
    ensures forall b | b in RateTick(name, r, cutoff).1 :: TopicOf(b) == AboutRate(name)
  {
  }

  lemma RatesTicked(cfg: Config, t: Timers, at: Stamped, cutoff: int, was: map<string, Rate>, log: seq<Broadcast>,
                    order: seq<string>)
    requires at.input.Tock? && Due(t.tick, cfg.tickInterval, at.now) && cutoff == at.now - cfg.grace
    requires Walked(order, was, {})
    ensures var will := map n | n in was :: RateTick(n, was[n], cutoff).0;
            var log' := log + Gather(order, map n | n in was :: RateTick(n, was[n], cutoff).1);
            && Moved(RateMachines(cfg), RateTopic(), RateFeed(cfg, t, at), was, log, will, log')
            && OnlyAbout(RateTopic(), log, log')
  {
    hide Moved, OnlyAbout, Walked, Gather, RateTick;
    var will := map n | n in was :: RateTick(n, was[n], cutoff).0;
    var emits := map n | n in was :: RateTick(n, was[n], cutoff).1;
    forall n, b | n in emits && b in emits[n] ensures TopicOf(b) == RateTopic()(n) {
      RateTickTopics(n, was[n], cutoff);
    }
    MovedByWalk(RateMachines(cfg), RateTopic(), RateFeed(cfg, t, at), Op.Tick(cutoff), was, log, will, emits, order);
  }

  lemma StateCheckTopics(name: string, s: State, now: int)
    ensures forall b | b in StateCheck(name, s, now).1 :: TopicOf(b) == AboutState(name)
  {
  }

  lemma StatesChecked(cfg: Config, t: Timers, at: Stamped, was: map<string, State>, log: seq<Broadcast>,
                      order: seq<string>)
    requires at.input.Tock? && Due(t.freshness, cfg.freshnessInterval, at.now) && Walked(order, was, {})
    ensures var will := map n | n in was :: StateCheck(n, was[n], at.now).0;
            var log' := log + Gather(order, map n | n in was :: StateCheck(n, was[n], at.now).1);
            && Moved(StateMachines(cfg), StateTopic(), StateFeed(cfg, t, at), was, log, will, log')
            && OnlyAbout(StateTopic(), log, log')
  {
    hide Moved, OnlyAbout, Walked, Gather, StateCheck;
    var will := map n | n in was :: StateCheck(n, was[n], at.now).0;
    var emits := map n | n in was :: StateCheck(n, was[n], at.now).1;
    forall n, b | n in emits && b in emits[n] ensures TopicOf(b) == StateTopic()(n) {
      StateCheckTopics(n, was[n], at.now);
    }
    MovedByWalk(StateMachines(cfg), StateTopic(), StateFeed(cfg, t, at), Check(at.now), was, log, will, emits, order);
  }

  class Kernel {
    const cfg: Config
    var states: map<string, State>
    var counters: map<string, Counter>
    var samples: map<string, Sample>
    var rates: map<string, Rate>
    const events: EventBuffer
    var keys: KeyTable
    var timers: Timers
    var log: seq<Broadcast>  // everything sent to the broadcast socket

    ghost function Snapshot(): Db
      reads this
    {
      Db(states, counters, samples, rates, timers, log)
    }

    /** A kernel configured with some named datapoints, before its first PDU. */
    constructor (cfg: Config, states: map<string, State>, counters: map<string, Counter>,
                 samples: map<string, Sample>, rates: map<string, Rate>)
      ensures this.cfg == cfg && Snapshot() == Db(states, counters, samples, rates, Timers(0, 0, 0), [])
      ensures fresh(events) && events.Valid() && events.events == [] && keys == map[]
    {
      this.cfg := cfg;
      this.states, this.counters, this.samples, this.rates := states, counters, samples, rates;
      keys, timers, log := map[], Timers(0, 0, 0), [];
      events := new EventBuffer();
    }

    /** [ STATE | ts | name | code | message ] */
    method OnState(now: int, ts: u32, name: string, code: u8, msg: string)
      modifies `states, `log
      ensures Moved(StateMachines(cfg), StateTopic(), StateFeed(cfg, timers, At(now, StatePdu(ts, name, code, msg))),
                    old(states), old(log), states, log)
      ensures OnlyAbout(StateTopic(), old(log), log)
    {
      hide Moved, OnlyAbout, StatStr, FirstMatch;
      if name != "" && msg != "" {
        if name !in states {
          var rule := FirstRule(cfg.stateRules, name);
          if rule.Some? {
            states := states[name := FreshState(rule.value, now)];
          }
        }
        if name in states && !states[name].ignore {
          var s := states[name];
          var transition := s.stale || s.status != code;
          s := s.(status := code, summary := msg, lastSeen := ToI32(ts),
                  expiry := ToI32((ts + s.typ.freshness) % TWO32), stale := false);
          if transition {
            log := log + [CastTransition(name, s)];
          }
          log := log + [CastState(name, s)];
          states := states[name := s];
        }
        ghost var out := StateStep(cfg.stateRules, name, Lookup(old(states), name), Update(ts, code, msg, now)).1;
        assert log == old(log) + out;
        StateMoves(cfg, timers, At(now, StatePdu(ts, name, code, msg)), old(states), old(log), states, out);
      } else {
        MovedNowhere(StateMachines(cfg), StateTopic(), StateFeed(cfg, timers, At(now, StatePdu(ts, name, code, msg))),
                     states, log, log);
        StreamSame(StateTopic(), log);
      }
    }

    /** `check_freshness`: marks what has expired. */
    method CheckFreshness(ghost t: Timers, now: int)
      requires Due(t.freshness, cfg.freshnessInterval, now)
      modifies `states, `log
      ensures Moved(StateMachines(cfg), StateTopic(), StateFeed(cfg, t, At(now, Tock)), old(states), old(log), states,
                    log)
      ensures OnlyAbout(StateTopic(), old(log), log)
    {
      hide Moved, OnlyAbout, Midway, Walked, Gather;
      ghost var was := states;
      ghost var will := map n | n in was :: StateCheck(n, was[n], now).0;
      ghost var emits := map n | n in was :: StateCheck(n, was[n], now).1;
      ghost var order: seq<string> := [];
      var left := states.Keys;
      MidwayEnds(was, will);
      GatherNone(emits);
      while left != {}
        invariant Walked(order, was, left)
        invariant states == Midway(was, will, left)
        invariant log == old(log) + Gather(order, emits)
      {
        var name :| name in left;
        MidwayStep(was, will, left, order, name);
        GatherStep(order, emits, name);
        var s := states[name];
        if !(s.expiry > now || s.ignore) {
          var transition := !s.stale || s.status != s.typ.status;
          s := s.(stale := true, expiry := now + s.typ.freshness, status := s.typ.status, summary := s.typ.summary);
          if transition {
            log := log + [CastTransition(name, s)];
          }
          log := log + [CastState(name, s)];
        }
        states := states[name := s];
        order, left := order + [name], left - {name};
      }
      StatesChecked(cfg, t, At(now, Tock), was, old(log), order);
    }

    /** [ COUNTER | ts | name | ... ] */
    method OnCounter(ghost now: int, ts: u32, name: string, payload: i32)
      modifies `counters, `log
      ensures Moved(CounterMachines(cfg), CounterTopic(),
                    CounterFeed(cfg, timers, At(now, CounterPdu(ts, name, payload))),
                    old(counters), old(log), counters, log)
      ensures OnlyAbout(CounterTopic(), old(log), log)
    {
      hide W.WinStart, Stamp, Moved, OnlyAbout;
      if name != "" {
        if name !in counters {
          var rule := FirstRule(cfg.counterRules, name);
          if rule.Some? {
            counters := counters[name := FreshCounter(rule.value)];
          }
        }
        if name in counters && !counters[name].ignore {
          var c := counters[name];
          if c.lastSeen > 0 && c.lastSeen != ts && W.WinStart(c.window, c.lastSeen) != W.WinStart(c.window, ts) {
            log := log + [CounterCast(Stamp(c.window, c.lastSeen), name, c.value)];
            c := c.(lastSeen := 0, value := 0);
          }
          c := c.(lastSeen := ToI32(ts), value := Add64(c.value, payload));
          counters := counters[name := c];
        }
        ghost var out := CounterStep(cfg.counterRules, name, Lookup(old(counters), name), Op.Submit(ts, payload)).1;
        assert log == old(log) + out;
        MovedAt(CounterMachines(cfg), CounterTopic(), CounterFeed(cfg, timers, At(now, CounterPdu(ts, name, payload))),
                name, Op.Submit(ts, payload), old(counters), old(log), counters, out);
      } else {
        MovedNowhere(CounterMachines(cfg), CounterTopic(),
                     CounterFeed(cfg, timers, At(now, CounterPdu(ts, name, payload))), counters, log, log);
        StreamSame(CounterTopic(), log);
      }
    }

    /** Flushes the counters whose window ended before the cutoff. */
    method TickCounters(ghost t: Timers, ghost at: Stamped, cutoff: int)
      requires at.input.Tock? && Due(t.tick, cfg.tickInterval, at.now) && cutoff == at.now - cfg.grace
      modifies `counters, `log
      ensures Moved(CounterMachines(cfg), CounterTopic(), CounterFeed(cfg, t, at), old(counters), old(log), counters,
                    log)
      ensures OnlyAbout(CounterTopic(), old(log), log)
    {
      hide W.WinStart, Stamp, Moved, OnlyAbout, Midway, Walked, Gather;
      ghost var was := counters;
      ghost var will := map n | n in was :: CounterTick(n, was[n], cutoff).0;
      ghost var emits := map n | n in was :: CounterTick(n, was[n], cutoff).1;
      ghost var order: seq<string> := [];
      var left := counters.Keys;
      MidwayEnds(was, will);
      GatherNone(emits);
      while left != {}
        invariant Walked(order, was, left)
        invariant counters == Midway(was, will, left)
        invariant log == old(log) + Gather(order, emits)
      {
        var name :| name in left;
        MidwayStep(was, will, left, order, name);
        GatherStep(order, emits, name);
        var c := counters[name];
        if !(c.ignore || c.lastSeen == 0 || W.WinEnd(c.window, c.lastSeen) >= cutoff) {
          log := log + [CastCounter(name, c)];
          c := CounterReset(c);
        }
        counters := counters[name := c];
        order, left := order + [name], left - {name};
      }
      CountersTicked(cfg, t, at, cutoff, was, old(log), order);
    }

    /** Marks or removes the counters that match. */
    method ForgetCounters(ghost at: Stamped, payload: bv16, matches: string -> bool, ignore: bool)
      requires at.input == ForgetPdu(payload, Some(matches), ignore)
      modifies `counters
      ensures Moved(CounterMachines(cfg), CounterTopic(), CounterFeed(cfg, timers, at), old(counters), log, counters,
                    log)
    {
      hide Moved, Midway, Walked;
      ghost var was := counters;
      if payload & PAYLOAD_COUNTER != 0 {
        ghost var will := map n | n in was && (!matches(n) || ignore) ::
          if matches(n) then was[n].(ignore := true) else was[n];
        ghost var order: seq<string> := [];
        var left := counters.Keys;
        MidwayEnds(was, will);
        while left != {}
          invariant Walked(order, was, left)
          invariant counters == Midway(was, will, left)
        {
          var name :| name in left;
          MidwayStep(was, will, left, order, name);
          if matches(name) {
            if ignore {
              counters := counters[name := counters[name].(ignore := true)];
            } else {
              counters := counters - {name};
            }
          } else {
            counters := counters[name := counters[name]];
          }
          order, left := order + [name], left - {name};
        }
      }
      forall n ensures RunOf(CounterMachines(cfg)(n), Lookup(was, n),
                             CounterFeed(cfg, timers, at)(n)) == (Lookup(counters, n), []) {
        RunOne(CounterMachines(cfg)(n), Lookup(was, n), Op.Forget(ignore));
      }
      MovedSilently(CounterMachines(cfg), CounterTopic(), CounterFeed(cfg, timers, at), was, log, counters);
    }

    /** [ SAMPLE | ts | name | ... ] */
    method OnSample(ghost now: int, ts: u32, name: string, payload: Values)
      modifies `samples, `log
      ensures Moved(SampleMachines(cfg), SampleTopic(), SampleFeed(cfg, timers, At(now, SamplePdu(ts, name, payload))),
                    old(samples), old(log), samples, log)
      ensures OnlyAbout(SampleTopic(), old(log), log)
    {
      hide W.WinStart, Stamp, Moved, OnlyAbout;
      if name != "" {
        if name !in samples {
          var rule := FirstRule(cfg.sampleRules, name);
          if rule.Some? {
            samples := samples[name := FreshSample(rule.value)];
          }
        }
        if name in samples && !samples[name].ignore {
          var x := samples[name];
          if x.lastSeen > 0 && x.lastSeen != ts && W.WinStart(x.window, x.lastSeen) != W.WinStart(x.window, ts) {
            log := log + [CastSample(name, x)];
            x := x.(lastSeen := 0, stats := EMPTY);
          }
          var stats := SampleAll(x.stats, payload);
          x := x.(stats := stats, lastSeen := ToI32(ts));
          samples := samples[name := x];
        }
        ghost var out := SampleStep(cfg.sampleRules, name, Lookup(old(samples), name), Op.Submit(ts, payload)).1;
        assert log == old(log) + out;
        MovedAt(SampleMachines(cfg), SampleTopic(), SampleFeed(cfg, timers, At(now, SamplePdu(ts, name, payload))),
                name, Op.Submit(ts, payload), old(samples), old(log), samples, out);
      } else {
        MovedNowhere(SampleMachines(cfg), SampleTopic(), SampleFeed(cfg, timers, At(now, SamplePdu(ts, name, payload))),
                     samples, log, log);
        StreamSame(SampleTopic(), log);
      }
    }

    /** Flushes the samples whose window ended before the cutoff. */
    method TickSamples(ghost t: Timers, ghost at: Stamped, cutoff: int)
      requires at.input.Tock? && Due(t.tick, cfg.tickInterval, at.now) && cutoff == at.now - cfg.grace
      modifies `samples, `log
      ensures Moved(SampleMachines(cfg), SampleTopic(), SampleFeed(cfg, t, at), old(samples), old(log), samples, log)
      ensures OnlyAbout(SampleTopic(), old(log), log)
    {
      hide W.WinStart, Stamp, Moved, OnlyAbout, Midway, Walked, Gather;
      ghost var was := samples;
      ghost var will := map n | n in was :: SampleTick(n, was[n], cutoff).0;
      ghost var emits := map n | n in was :: SampleTick(n, was[n], cutoff).1;
      ghost var order: seq<string> := [];
      var left := samples.Keys;
      MidwayEnds(was, will);
      GatherNone(emits);
      while left != {}
        invariant Walked(order, was, left)
        invariant samples == Midway(was, will, left)
        invariant log == old(log) + Gather(order, emits)
      {
        var name :| name in left;
        MidwayStep(was, will, left, order, name);
        GatherStep(order, emits, name);
        var x := samples[name];
        if !(x.ignore || x.lastSeen == 0 || W.WinEnd(x.window, x.lastSeen) >= cutoff) {
          log := log + [CastSample(name, x)];
          x := SampleReset(x);
        }
        samples := samples[name := x];
        order, left := order + [name], left - {name};
      }
      SamplesTicked(cfg, t, at, cutoff, was, old(log), order);
    }

    /** Marks or removes the samples that match. */
    method ForgetSamples(ghost at: Stamped, payload: bv16, matches: string -> bool, ignore: bool)
      requires at.input == ForgetPdu(payload, Some(matches), ignore)
      modifies `samples
      ensures Moved(SampleMachines(cfg), SampleTopic(), SampleFeed(cfg, timers, at), old(samples), log, samples, log)
    {
      hide Moved, Midway, Walked;
      ghost var was := samples;
      if payload & PAYLOAD_SAMPLE != 0 {
        ghost var will := map n | n in was && (!matches(n) || ignore) ::
          if matches(n) then was[n].(ignore := true) else was[n];
        ghost var order: seq<string> := [];
        var left := samples.Keys;
        MidwayEnds(was, will);
        while left != {}
          invariant Walked(order, was, left)
          invariant samples == Midway(was, will, left)
        {
          var name :| name in left;
          MidwayStep(was, will, left, order, name);
          if matches(name) {
            if ignore {
              samples := samples[name := samples[name].(ignore := true)];
            } else {
              samples := samples - {name};
            }
          } else {
            samples := samples[name := samples[name]];
          }
          order, left := order + [name], left - {name};
        }
      }
      forall n ensures RunOf(SampleMachines(cfg)(n), Lookup(was, n),
                             SampleFeed(cfg, timers, at)(n)) == (Lookup(samples, n), []) {
        RunOne(SampleMachines(cfg)(n), Lookup(was, n), Op.Forget(ignore));
      }
      MovedSilently(SampleMachines(cfg), SampleTopic(), SampleFeed(cfg, timers, at), was, log, samples);
    }

    /** [ RATE | ts | name | ... ] */
    method OnRate(ghost now: int, ts: u32, name: string, payload: u64)
      modifies `rates, `log
      ensures Moved(RateMachines(cfg), RateTopic(), RateFeed(cfg, timers, At(now, RatePdu(ts, name, payload))),
                    old(rates), old(log), rates, log)
      ensures OnlyAbout(RateTopic(), old(log), log)
    {
      hide W.WinStart, Stamp, Moved, OnlyAbout;
      if name != "" {
        if name !in rates {
          var rule := FirstRule(cfg.rateRules, name);
          if rule.Some? {
            rates := rates[name := FreshRate(rule.value)];
          }
        }
        if name in rates && !rates[name].ignore {
          var r := rates[name];
          if r.lastSeen > 0 && r.lastSeen != ts && W.WinStart(r.window, r.lastSeen) != W.WinStart(r.window, ts) {
            log := log + [CastRate(name, r)];
            r := r.(firstSeen := 0, lastSeen := 0, first := 0, last := 0);
          }
          if r.firstSeen == 0 {
            r := r.(firstSeen := ToI32(ts));
          }
          r := r.(last := payload, first := if r.lastSeen == 0 then payload else r.first);
          r := r.(lastSeen := ToI32(ts));
          rates := rates[name := r];
        }
        ghost var out := RateStep(cfg.rateRules, name, Lookup(old(rates), name), Op.Submit(ts, payload)).1;
        assert log == old(log) + out;
        MovedAt(RateMachines(cfg), RateTopic(), RateFeed(cfg, timers, At(now, RatePdu(ts, name, payload))),
                name, Op.Submit(ts, payload), old(rates), old(log), rates, out);
      } else {
        MovedNowhere(RateMachines(cfg), RateTopic(), RateFeed(cfg, timers, At(now, RatePdu(ts, name, payload))), rates,
                     log, log);
        StreamSame(RateTopic(), log);
      }
    }

    /** Flushes the rates whose window ended before the cutoff. */
    method TickRates(ghost t: Timers, ghost at: Stamped, cutoff: int)
      requires at.input.Tock? && Due(t.tick, cfg.tickInterval, at.now) && cutoff == at.now - cfg.grace
      modifies `rates, `log
      ensures Moved(RateMachines(cfg), RateTopic(), RateFeed(cfg, t, at), old(rates), old(log), rates, log)
      ensures OnlyAbout(RateTopic(), old(log), log)
    {
      hide W.WinStart, Stamp, Moved, OnlyAbout, Midway, Walked, Gather;
      ghost var was := rates;
      ghost var will := map n | n in was :: RateTick(n, was[n], cutoff).0;
      ghost var emits := map n | n in was :: RateTick(n, was[n], cutoff).1;
      ghost var order: seq<string> := [];
      var left := rates.Keys;
      MidwayEnds(was, will);
      GatherNone(emits);
      while left != {}
        invariant Walked(order, was, left)
        invariant rates == Midway(was, will, left)
        invariant log == old(log) + Gather(order, emits)
      {
        var name :| name in left;
        MidwayStep(was, will, left, order, name);
        GatherStep(order, emits, name);
        var r := rates[name];
        if !(r.ignore || r.lastSeen == 0 || W.WinEnd(r.window, r.lastSeen) >= cutoff) {
          log := log + [CastRate(name, r)];
          r := RateReset(r);
        }
        rates := rates[name := r];
        order, left := order + [name], left - {name};
      }
      RatesTicked(cfg, t, at, cutoff, was, old(log), order);
    }

    /** Marks or removes the rates that match. */
    method ForgetRates(ghost at: Stamped, payload: bv16, matches: string -> bool, ignore: bool)
      requires at.input == ForgetPdu(payload, Some(matches), ignore)
      modifies `rates
      ensures Moved(RateMachines(cfg), RateTopic(), RateFeed(cfg, timers, at), old(rates), log, rates, log)
    {
      hide Moved, Midway, Walked;
      ghost var was := rates;
      if payload & PAYLOAD_RATE != 0 {
        ghost var will := map n | n in was && (!matches(n) || ignore) ::
          if matches(n) then was[n].(ignore := true) else was[n];
        ghost var order: seq<string> := [];
        var left := rates.Keys;
        MidwayEnds(was, will);
        while left != {}
          invariant Walked(order, was, left)
          invariant rates == Midway(was, will, left)
        {
          var name :| name in left;
          MidwayStep(was, will, left, order, name);
          if matches(name) {
            if ignore {
              rates := rates[name := rates[name].(ignore := true)];
            } else {
              rates := rates - {name};
            }
          } else {
            rates := rates[name := rates[name]];
          }
          order, left := order + [name], left - {name};
        }
      }
      forall n
        ensures RunOf(RateMachines(cfg)(n), Lookup(was, n), RateFeed(cfg, timers, at)(n))
          == (Lookup(rates, n), [])
      {
        RunOne(RateMachines(cfg)(n), Lookup(was, n), Op.Forget(ignore));
      }
      MovedSilently(RateMachines(cfg), RateTopic(), RateFeed(cfg, timers, at), was, log, rates);
    }

    /** Marks or removes the states that match. */
    method ForgetStates(ghost at: Stamped, payload: bv16, matches: string -> bool, ignore: bool)
      requires at.input == ForgetPdu(payload, Some(matches), ignore)
      modifies `states
      ensures Moved(StateMachines(cfg), StateTopic(), StateFeed(cfg, timers, at), old(states), log, states, log)
    {
      hide Moved, Midway, Walked;
      ghost var was := states;
      if payload & PAYLOAD_STATE != 0 {
        ghost var will := map n | n in was && (!matches(n) || ignore) ::
          if matches(n) then was[n].(ignore := true) else was[n];
        ghost var order: seq<string> := [];
        var left := states.Keys;
        MidwayEnds(was, will);
        while left != {}
          invariant Walked(order, was, left)
          invariant states == Midway(was, will, left)
        {
          var name :| name in left;
          MidwayStep(was, will, left, order, name);
          if matches(name) {
            if ignore {
              states := states[name := states[name].(ignore := true)];
            } else {
              states := states - {name};
            }
          } else {
            states := states[name := states[name]];
          }
          order, left := order + [name], left - {name};
        }
      }
      forall n ensures RunOf(StateMachines(cfg)(n), Lookup(was, n),
                             StateFeed(cfg, timers, at)(n)) == (Lookup(states, n), []) {
        RunOne(StateMachines(cfg)(n), Lookup(was, n), Drop(ignore));
      }
      MovedSilently(StateMachines(cfg), StateTopic(), StateFeed(cfg, timers, at), was, log, states);
    }

    /** [ EVENT | ts | name | description ] */
    method OnEvent(ev: Event)
      requires events.Valid()
      modifies `log, events
      ensures events.Valid() && events.events == Buffered(old(events.events), ev, cfg.eventsMax, cfg.eventsKeep)
      ensures log == old(log) + [EventCast(ev.timestamp, ev.name, ev.extra)]
    {
      log := log + [EventCast(ev.timestamp, ev.name, ev.extra)];
      events.Buffer(ev, cfg.eventsMax, cfg.eventsKeep);
    }

    /** [ SET.KEYS | (key|value)+ ] */
    method OnSetKeys(pairs: seq<(string, string)>)
      modifies `keys
      ensures keys == SetPairs(old(keys), pairs)
    {
      for i := 0 to |pairs|
        invariant keys == SetPairs(old(keys), pairs[..i])
      {
        assert Front(pairs[..i + 1]) == pairs[..i];
        keys := keys[pairs[i].0 := Some(pairs[i].1)];
      }
      assert pairs[..|pairs|] == pairs;
    }

    /** [ DEL.KEYS | name+ ]: a deleted key keeps its slot, without a value. */
    method OnDelKeys(names: seq<string>)
      modifies `keys
      ensures keys == DelNames(old(keys), names)
    {
      for i := 0 to |names|
        invariant keys == DelNames(old(keys), names[..i])
      {
        assert Front(names[..i + 1]) == names[..i];
        keys := keys[names[i] := None];
      }
      assert names[..|names|] == names;
    }

    /** The metric ticks of a timing interrupt, if they are due. */
    method TickMetrics(ghost t: Timers, now: int)
      requires timers.tick == t.tick
      modifies `counters, `samples, `rates, `timers, `log
      ensures timers == old(timers).(tick := if Due(t.tick, cfg.tickInterval, now) then now else t.tick)
      ensures Moved(CounterMachines(cfg), CounterTopic(), CounterFeed(cfg, t, At(now, Tock)), old(counters), old(log),
                    counters, log)
      ensures Moved(SampleMachines(cfg), SampleTopic(), SampleFeed(cfg, t, At(now, Tock)), old(samples), old(log),
                    samples, log)
      ensures Moved(RateMachines(cfg), RateTopic(), RateFeed(cfg, t, At(now, Tock)), old(rates), old(log), rates, log)
      ensures Quiet(StateTopic(), old(log), log) && Unheard(old(log), log)
    {
      hide Moved, OnlyAbout, Quiet, About;
      ghost var log0, at := log, At(now, Tock);
      if timers.tick + cfg.tickInterval < now {
        timers := timers.(tick := now);
        var cutoff := now - cfg.grace;
        TickCounters(t, at, cutoff);
        ghost var log1 := log;
        TickSamples(t, at, cutoff);
        ghost var log2 := log;
        TickRates(t, at, cutoff);
        UnheardElsewhere(CounterTopic(), log0, log1);
        UnheardElsewhere(SampleTopic(), log1, log2);
        UnheardElsewhere(RateTopic(), log2, log);
        TicksCompose(cfg, t, at, old(counters), counters, old(samples), samples, old(rates), rates, log0, log1, log2,
                     log);
      } else {
        TicksIdle(cfg, t, at, counters, samples, rates, log);
      }
    }

    /** The keys PDUs of a savestate pass; the files it writes are modelled on their own. */
    method SaveState() returns (batches: Batches)
      modifies `log
      ensures TellsKeys(keys, batches) && log == old(log) + KeysCasts(batches)
    {
      var entries := WalkKeys(keys);
      Keys.LiveHolds(entries);
      batches := Keys.BroadcastSetKeys(entries);
      for i := 0 to |batches|
        invariant log == old(log) + KeysCasts(batches[..i])
      {
        log := log + [SetKeysCast(batches[i])];
        assert KeysCasts(batches[..i + 1]) == KeysCasts(batches[..i]) + [SetKeysCast(batches[i])];
      }
      assert batches[..|batches|] == batches;
    }

    /** A timing interrupt; `told` are the batches of a savestate pass. */
    method OnTock(now: int) returns (ghost told: Batches)
      modifies `states, `counters, `samples, `rates, `timers, `log
      ensures Reacts(cfg, At(now, Tock), old(Snapshot()), Snapshot())
      ensures Heard(cfg, old(timers), keys, At(now, Tock), told, old(log), log)
    {
      hide Moved, OnlyAbout, About, Heard, TellsKeys;
      ghost var t, at := timers, At(now, Tock);
      TickMetrics(t, now);
      ghost var log1 := log;
      if timers.freshness + cfg.freshnessInterval < now {
        timers := timers.(freshness := now);
        CheckFreshness(t, now);
      } else {
        MovedNowhere(StateMachines(cfg), StateTopic(), StateFeed(cfg, t, at), states, log, log);
        StreamSame(StateTopic(), log);
      }
      ghost var log2 := log;
      UnheardElsewhere(StateTopic(), log1, log2);
      told := [];
      if timers.save + cfg.saveInterval < now {
        timers := timers.(save := now);
        var batches := SaveState();
        told := batches;
        HeardKeys(cfg, t, keys, at, told, old(log), log2);
      } else {
        HeardNothing(cfg, t, keys, at, old(log), log2);
      }
      KeysOnly(log2, log, told);
      TockCompose(cfg, t, at, old(Snapshot()), Snapshot(), log1, log2);
    }

    /** [ FORGET | type | pattern | ig ]; a pattern that does not compile changes nothing. */
    method OnForget(now: int, payload: bv16, pattern: Option<string -> bool>, ignore: bool)
      modifies `states, `counters, `samples, `rates
      ensures Reacts(cfg, At(now, ForgetPdu(payload, pattern, ignore)), old(Snapshot()), Snapshot())
    {
      hide Moved;
      ghost var at := At(now, ForgetPdu(payload, pattern, ignore));
      if pattern.Some? {
        ForgetStates(at, payload, pattern.value, ignore);
        ForgetCounters(at, payload, pattern.value, ignore);
        ForgetSamples(at, payload, pattern.value, ignore);
        ForgetRates(at, payload, pattern.value, ignore);
      } else {
        Unmoved(cfg, at, Snapshot(), log);
      }
    }

    /** The reactor callback: one PDU or timing interrupt; `told` are the batches of a savestate pass. */
    method React(now: int, input: Input) returns (ghost told: Batches)
      requires events.Valid()
      modifies this, events
      ensures events.Valid()
      ensures Reacts(cfg, At(now, input), old(Snapshot()), Snapshot())
      ensures Heard(cfg, old(timers), old(keys), At(now, input), told, old(log), log)
      ensures events.events == EventsNext(cfg, old(events.events), input)
      ensures keys == KeysNext(old(keys), input)
      ensures input.ForgetPdu? ==> log == old(log)
    {
      hide Moved, OnlyAbout, About, Heard;
      ghost var k, at := Snapshot(), At(now, input);
      told := [];
      match input {
        case StatePdu(ts, name, code, msg) =>
          OnState(now, ts, name, code, msg);
          StateMoved(cfg, at, k, Snapshot(), keys);
        case CounterPdu(ts, name, incr) =>
          OnCounter(now, ts, name, incr);
          CounterMoved(cfg, at, k, Snapshot(), keys);
        case SamplePdu(ts, name, values) =>
          OnSample(now, ts, name, values);
          SampleMoved(cfg, at, k, Snapshot(), keys);
        case RatePdu(ts, name, reading) =>
          OnRate(now, ts, name, reading);
          RateMoved(cfg, at, k, Snapshot(), keys);
        case EventPdu(ev) =>
          OnEvent(ev);
          EventMoved(cfg, at, k, keys);
        case SetKeysPdu(pairs) =>
          HeardNothing(cfg, timers, keys, at, log, log);
          OnSetKeys(pairs);
          Unmoved(cfg, at, k, log);
        case DelKeysPdu(names) =>
          HeardNothing(cfg, timers, keys, at, log, log);
          OnDelKeys(names);
          Unmoved(cfg, at, k, log);
        case ForgetPdu(payload, pattern, ignore) =>
          HeardNothing(cfg, timers, keys, at, log, log);
          OnForget(now, payload, pattern, ignore);
        case Tock =>
          told := OnTock(now);
      }
    }

    /** The reactor loop over a whole run; `told[i]` are the batches of keys that input `i` caused to be sent. */
    method Go(ins: seq<Stamped>) returns (ghost told: seq<Batches>)
      requires events.Valid()
      modifies this, events
      ensures events.Valid()
      ensures Ran(cfg, ins, old(Snapshot()), Snapshot())
      ensures HeardAll(cfg, old(timers), old(keys), ins, told, old(log), log)
      ensures events.events == EventsAfter(cfg, old(events.events), ins)
      ensures keys == KeysAfter(old(keys), ins)
    {
      hide Reacts, Moved, Heard, HeardAll, EventsNext, KeysNext, TimersNext;
      RanNowhere(cfg, Snapshot());
      told := [];
      HeardNone(cfg, timers, keys, log);
      for i := 0 to |ins|
        invariant events.Valid()
        invariant Ran(cfg, ins[..i], old(Snapshot()), Snapshot())
        invariant HeardAll(cfg, old(timers), old(keys), ins[..i], told, old(log), log)
        invariant events.events == EventsAfter(cfg, old(events.events), ins[..i])
        invariant keys == KeysAfter(old(keys), ins[..i])
      {
        ghost var k := Snapshot();
        ghost var more := React(ins[i].now, ins[i].input);
        RanThen(cfg, ins[..i], ins[i], old(Snapshot()), k, Snapshot());
        HeardThen(cfg, old(timers), old(keys), ins[..i], ins[i], told, more, old(log), k.log, log);
        told := told + [more];
        assert Front(ins[..i + 1]) == ins[..i] && Last(ins[..i + 1]) == ins[i];
        assert ins[..i + 1] == ins[..i] + [ins[i]];
      }
      assert ins[..|ins|] == ins;
    }
  }
}
