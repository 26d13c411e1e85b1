/**
 What counters, sample sets and rates have in common: rules, the operations that reach one name,
 the rollover and flush conditions, and the bridge to the item-keeping machine of Windows.dfy,
 from which all three kinds inherit conservation and exactly-once windows.
 */
module Metrics {
  import opened Basics
  import W = Windows

  type pos = W.pos

  /** A regex rule of the configuration; the regex itself is a predicate on names. */
  datatype Rule<!T> = Rule(matches: string -> bool, target: T)

  /** Rules are tried in order; the first that matches decides. */
  function FirstMatch<T>(rules: seq<Rule<T>>, name: string): Option<T> {
    if rules == [] then None
    else if rules[0].matches(name) then Some(rules[0].target)
    else FirstMatch(rules[1..], name)
  }

  /** Rule `i` is the first that matches the name. */
  ghost predicate Decides<T>(rules: seq<Rule<T>>, name: string, i: int) {
    0 <= i < |rules| && rules[i].matches(name) && forall j | 0 <= j < i :: !rules[j].matches(name)
  }

  /** The target found is that of the first rule that matches, and none is found only where none matches. */
  lemma {:induction false} FirstMatchDecides<T>(rules: seq<Rule<T>>, name: string)
    ensures FirstMatch(rules, name).None? <==> forall i | 0 <= i < |rules| :: !rules[i].matches(name)
    ensures forall i | Decides(rules, name, i) :: FirstMatch(rules, name) == Some(rules[i].target)
  {
    if rules != [] && !rules[0].matches(name) {
      var rest := rules[1..];
      FirstMatchDecides(rest, name);
      assert forall i | 0 < i < |rules| :: rules[i] == rest[i - 1];
      assert forall i | Decides(rules, name, i) :: Decides(rest, name, i - 1);
    }
  }

  /** What reaches one metric: a submission, a tick that flushes windows ended before `cutoff`, a FORGET. */
  datatype Op<+P> = Submit(ts: u32, payload: P) | Tick(cutoff: int) | Forget(ignore: bool)

  /** Window rollover: the entry holds data of another window than the one `ts` falls in. */
  predicate RollsOver(window: pos, lastSeen: int, ts: u32) {
    lastSeen > 0 && lastSeen != ts && W.WinStart(window, lastSeen) != W.WinStart(window, ts)
  }

  /** A tick flushes an entry that holds data of a window which ended before the cutoff. */
  predicate Flushes(window: pos, lastSeen: int, cutoff: int) {
    lastSeen != 0 && W.WinEnd(window, lastSeen) < cutoff
  }

  // ---------------------------------------------------------------- window labels

  /** The label of an entry's window as a broadcast carries it: an int32_t printed with `%u`. */
  function Stamp(window: pos, lastSeen: int): u32 {
    W.WinStart(window, lastSeen) % TWO32
  }

  /** Timestamps that are negative as int32_t, but whose label still comes out right. */
  predicate Aligned(window: pos, ts: u32) {
    ts >= 0x8000_0000 && ts % window == 0 && TWO32 % window == 0
  }

  lemma StampInRange(window: pos, t: int)
    requires 0 <= t < TWO32
    ensures Stamp(window, t) == W.WinStart(window, t)
  {
    W.WinStartBounds(window, t);
  }

  /** The stored time of a timestamp from 2^31 on rounds up, so its label is its window's iff it is aligned. */
  lemma StampIff(window: pos, ts: u32)
    requires ts >= 0x8000_0000 > window
    ensures Stamp(window, ToI32(ts)) == W.WinStart(window, ts) <==> Aligned(window, ts)
  {
    hide Stamp;
    var left := TWO32 - ts;
    var r, up := ts % window, left % window;
    W.WinStartBounds(window, ts);
    W.WinStartBounds(window, left);
    assert W.WinStart(window, ts) == ts - r && W.WinStart(window, ToI32(ts)) == up - left;
    W.WinStartSigns(window, ts);
    RoundedUp(window, ts, left);
    Remainders(window, ts, left);
  }

  lemma RoundedUp(window: pos, ts: u32, left: int)
    requires left == TWO32 - ts && 0 < left && W.WinStart(window, ToI32(ts)) == left % window - left
    ensures Stamp(window, ToI32(ts)) == if left % window == left then 0 else ts + left % window
  {
    assert 0 <= left % window <= left by { W.WinStartBounds(window, left); }
    var t := left % window - left;
    if t < 0 {
      assert t % TWO32 == t + TWO32;
    }
  }

  lemma Remainders(window: pos, a: nat, b: nat)
    requires a + b == TWO32
    ensures a % window == 0 && b % window == 0 <==> a % window == 0 && TWO32 % window == 0
  {
    if a % window == 0 {
      assert a == a / window * window;
      assert b == b / window * window + b % window;
      SameRemainder(window, a / window, b / window, b % window, TWO32);
    }
  }

  lemma SameRemainder(window: pos, p: int, q: int, r: nat, n: int)
    requires n == p * window + (q * window + r) && r < window
    ensures n % window == r
  {
    assert n == (p + q) * window + r;
    OneQuotient(window, p + q, r, n / window, n % window, n);
  }

  lemma OneQuotient(window: pos, q: int, r: nat, q': int, r': nat, n: int)
    requires n == q * window + r && r < window && n == q' * window + r' && r' < window
    ensures r == r'
  {
    if q < q' {
      W.MultiplesApart(window, q, q');
    } else if q' < q {
      W.MultiplesApart(window, q', q);
    }
  }

  // ---------------------------------------------------------------- simulation

  /** Submissions with usable timestamps and ticks, but no FORGET. */
  ghost predicate Plain<P>(ops: seq<Op<P>>) {
    forall i | 0 <= i < |ops| :: !ops[i].Forget? && (ops[i].Submit? ==> InRange(ops[i].ts))
  }

  function WinOp<P>(op: Op<P>): W.Op<P> {
    match op
    case Submit(ts, p) => W.Submit(W.Item(ts, p))
    case Tick(cutoff) => W.Flush(cutoff)
    case Forget(_) => W.Flush(0)
  }

  function WinOps<P>(ops: seq<Op<P>>): seq<W.Op<P>> {
    seq(|ops|, i requires 0 <= i < |ops| => WinOp(ops[i]))
  }

  function LastTs<P>(g: seq<W.Item<P>>): int {
    if g == [] then 0 else Last(g).ts
  }

  ghost predicate TsInRange<P>(g: seq<W.Item<P>>) {
    forall i | 0 <= i < |g| :: InRange(g[i].ts)
  }

  ghost predicate AllInRange<P>(groups: seq<seq<W.Item<P>>>) {
    forall i | 0 <= i < |groups| :: TsInRange(groups[i])
  }

  /** Submissions in range make groups in range. */
  lemma {:induction false} GroupsInRange<P>(window: pos, ops: seq<Op<P>>)
    requires Plain(ops)
    ensures var s := W.Run(window, WinOps(ops)); AllInRange(s.closed) && TsInRange(s.pending)
  {
    hide W.WinStart;
    if ops == [] {
    } else {
      GroupsInRange(window, Front(ops));
      assert Front(WinOps(ops)) == WinOps(Front(ops)) && Last(WinOps(ops)) == WinOp(Last(ops));
      assert ops[|ops| - 1] == Last(ops);
    }
  }

  /** The stamp of a group's entry is its label; an entry without items is stamped 0. */
  lemma StampOf<P>(window: pos, g: seq<W.Item<P>>)
    requires TsInRange(g)
    ensures Stamp(window, LastTs(g)) == W.WinStart(window, LastTs(g))
    ensures g != [] ==> Stamp(window, LastTs(g)) == W.Label(window, g)
  {
    hide Stamp, W.WinStart;
    StampInRange(window, LastTs(g));
  }

  /** The broadcasts for a list of closed groups. */
  function Render<P>(cast: seq<W.Item<P>> -> Broadcast, groups: seq<seq<W.Item<P>>>): seq<Broadcast> {
    seq(|groups|, i requires 0 <= i < |groups| => cast(groups[i]))
  }

  lemma RenderAppend<P>(cast: seq<W.Item<P>> -> Broadcast, groups: seq<seq<W.Item<P>>>, g: seq<W.Item<P>>)
    ensures Render(cast, groups + [g]) == Render(cast, groups) + [cast(g)]
  {
  }

  /** The submissions among the operations, as items. */
  function Submitted<P>(ops: seq<Op<P>>): seq<W.Item<P>> {
    W.Items(WinOps(ops))
  }

  /** Submissions with timestamps from an allowed set, and ticks, but no FORGET. */
  ghost predicate Uses<P>(allowed: u32 -> bool, ops: seq<Op<P>>) {
    forall i | 0 <= i < |ops| :: !ops[i].Forget? && (ops[i].Submit? ==> allowed(ops[i].ts))
  }

  lemma SubmittedMore<P>(ops: seq<Op<P>>, op: Op<P>)
    ensures Submitted(ops + [op]) == Submitted(ops) + (if op.Submit? then [W.Item(op.ts, op.payload)] else [])
  {
    var all := WinOps(ops + [op]);
    assert Front(all) == WinOps(ops) && Last(all) == WinOp(op);
  }

  /** Of two submissions to different windows, the window of the first has the first. */
  lemma PairSubmitted<P>(window: pos, s: u32, p: P, t: u32, q: P)
    requires W.WinStart(window, s) != W.WinStart(window, t)
    ensures W.InWindow(window, Submitted([Submit(s, p), Submit(t, q)]), W.WinStart(window, s)) == [W.Item(s, p)]
  {
    hide W.WinStart;
    var ops, first, second := WinOps([Submit(s, p), Submit(t, q)]), W.Item(s, p), W.Item(t, q);
    var start := W.WinStart(window, s);
    assert ops == [W.Submit(first), W.Submit(second)];
    assert Front(ops) == [W.Submit(first)] && Front([W.Submit(first)]) == [];
    assert W.Items([W.Submit(first)]) == [first] by {
      assert W.Items<P>([]) == [];
    }
    assert W.Items(ops) == [first, second];
    assert Front([first, second]) == [first] && Front([first]) == [];
    assert W.InWindow(window, [first], start) == [first] by {
      assert W.InWindow<P>(window, [], start) == [];
    }
  }

  /**
   The sets of timestamps whose runs are all accounted for: those in range, and those of a single aligned
   timestamp; two entries that are negative or zero would be merged.
   */
  ghost predicate Accountable(window: pos, allowed: u32 -> bool) {
    || (forall ts: u32 | allowed(ts) :: InRange(ts))
    || (forall s: u32, t: u32 | allowed(s) && allowed(t) :: s == t && Aligned(window, s))
  }

  /** A set that is not accountable has a timestamp that is misfiled alone, or a pair of which the first is. */
  lemma NotAccountable(window: pos, allowed: u32 -> bool) returns (s: u32, t: u32)
    requires window < 0x8000_0000 && !Accountable(window, allowed)
    ensures allowed(s) && allowed(t) && !InRange(s)
    ensures Aligned(window, s) ==> W.WinStart(window, s) != W.WinStart(window, t)
  {
    if ts: u32 :| allowed(ts) && !InRange(ts) && !Aligned(window, ts) {
      s, t := ts, ts;
    } else {
      s :| allowed(s) && !InRange(s);
      var u: u32, v: u32 :| allowed(u) && allowed(v) && !(u == v && Aligned(window, u));
      t := if u == s then v else u;
      AlignedStart(window, s);
      if Aligned(window, t) {
        AlignedStart(window, t);
      } else {
        W.WinStartBounds(window, t);
      }
    }
  }

  lemma AlignedStart(window: pos, ts: u32)
    requires Aligned(window, ts)
    ensures W.WinStart(window, ts) == ts
  {
  }

  lemma OneSubmitted<P>(window: pos, ts: u32, p: P)
    ensures W.InWindow(window, Submitted([Submit(ts, p)]), W.WinStart(window, ts)) == [W.Item(ts, p)]
  {
    hide W.WinStart;
    var ops, item := WinOps([Submit(ts, p)]), W.Item(ts, p);
    assert ops == [W.Submit(item)] && Front(ops) == [];
    assert W.Items<P>([]) == [] && W.Items(ops) == [item];
    assert Front([item]) == [] && W.InWindow<P>(window, [], W.WinStart(window, ts)) == [];
  }

  /** Operation `i` is processed when the kernel clock reads `clock[i]`. */
  function Timed<P>(clock: seq<int>, ops: seq<Op<P>>): seq<W.Timed<P>>
    requires |clock| == |ops|
  {
    seq(|ops|, i requires 0 <= i < |ops| => W.Timed(clock[i], WinOp(ops[i])))
  }

  /** See `Windows.Punctual`: a monotone clock, ordered timestamps, and delays within the grace period. */
  ghost predicate Punctual<P>(grace: int, clock: seq<int>, ops: seq<Op<P>>) {
    |clock| == |ops| && Plain(ops) && W.Punctual(grace, Timed(clock, ops))
  }

  /** The window label of a metric broadcast. */
  function CastTs(b: Broadcast): int {
    match b
    case CounterCast(ts, _, _) => ts
    case SampleCast(ts, _, _, _, _, _, _, _) => ts
    case RateCast(ts, _, _, _) => ts
    case _ => 0
  }

  ghost predicate LabelsIncrease(casts: seq<Broadcast>) {
    forall i, j | 0 <= i < j < |casts| :: CastTs(casts[i]) < CastTs(casts[j])
  }

  lemma RenderedOnce<P>(cast: seq<W.Item<P>> -> Broadcast, window: pos, grace: int, clock: seq<int>, ops: seq<Op<P>>)
    requires Punctual(grace, clock, ops)
    requires forall g :: g != [] && TsInRange(g) ==> CastTs(cast(g)) == W.Label(window, g)
    ensures var s := W.Run(window, WinOps(ops));
            && Render(cast, s.closed) + (if s.pending == [] then [] else [cast(s.pending)])
               == Render(cast, W.GroupBy(window, Submitted(ops)))
            && LabelsIncrease(Render(cast, W.GroupBy(window, Submitted(ops))))
            && Usable(W.GroupBy(window, Submitted(ops)))
  {
    hide W.WinStart;
    assert W.Ops(Timed(clock, ops)) == WinOps(ops);
    W.ExactlyOnce(window, grace, Timed(clock, ops));
    var s := W.Run(window, WinOps(ops));
    RenderAppend(cast, s.closed, s.pending);
    GroupsInRange(window, ops);
    var groups := W.Groups(s);
    assert forall i | 0 <= i < |groups| :: W.Homogeneous(window, groups[i]) && TsInRange(groups[i]);
  }

  /** No group is empty, and all timestamps are in range. */
  ghost predicate Usable<P>(groups: seq<seq<W.Item<P>>>) {
    forall i | 0 <= i < |groups| :: groups[i] != [] && TsInRange(groups[i])
  }

  /** The windows that a punctual run which ends in a tick leaves closed: see `Windows.FlushedOnTime`. */
  lemma ClosedOnTime<P>(window: pos, grace: int, clock: seq<int>, ops: seq<Op<P>>, now: int)
    requires |clock| == |ops| && Punctual(grace, clock + [now], ops + [Tick(now - grace)])
    ensures Plain(ops + [Tick(now - grace)])
    ensures var due := W.Ended(window, W.GroupBy(window, Submitted(ops)), now - grace);
            W.Run(window, WinOps(ops + [Tick(now - grace)])).closed == due && Usable(due)
  {
    hide W.WinStart, W.Punctual, W.Run, W.GroupBy, Submitted;
    var all := ops + [Tick(now - grace)];
    var tops := Timed(clock, ops);
    assert Timed(clock + [now], all) == tops + [W.Timed(now, W.Flush(now - grace))];
    assert W.Ops(Timed(clock + [now], all)) == WinOps(all);
    W.FlushedOnTime(window, grace, tops, now);
    SubmittedMore(ops, Tick(now - grace));
    assert Submitted(all) == Submitted(ops);
    assert Submitted(all) == W.Items(WinOps(all)) by { SubmittedIs(all); }
    ClosedAreUsable(window, all);
  }

  lemma SubmittedIs<P>(ops: seq<Op<P>>)
    ensures Submitted(ops) == W.Items(WinOps(ops))
  {
  }

  /** A window is closed only when it holds something. */
  lemma {:induction false} ClosedAreUsable<P>(window: pos, ops: seq<Op<P>>)
    requires Plain(ops)
    ensures Usable(W.Run(window, WinOps(ops)).closed) && TsInRange(W.Run(window, WinOps(ops)).pending)
  {
    hide W.WinStart, W.WinEnd;
    if ops == [] {
    } else {
      ClosedAreUsable(window, Front(ops));
      assert Front(WinOps(ops)) == WinOps(Front(ops)) && Last(WinOps(ops)) == WinOp(Last(ops));
      assert ops[|ops| - 1] == Last(ops);
    }
  }

  /** The broadcasts for usable groups are what the groups are told to be. */
  lemma RenderTells<P>(cast: seq<W.Item<P>> -> Broadcast, groups: seq<seq<W.Item<P>>>,
                       tells: (Broadcast, seq<W.Item<P>>) -> bool)
    requires Usable(groups) && forall g | g != [] && TsInRange(g) :: tells(cast(g), g)
    ensures var casts := Render(cast, groups);
            |casts| == |groups| && forall i | 0 <= i < |groups| :: tells(casts[i], groups[i])
  {
    hide TsInRange;
    forall i | 0 <= i < |groups| ensures tells(Render(cast, groups)[i], groups[i]) {
      assert groups[i] != [] && TsInRange(groups[i]);
      assert tells(cast(groups[i]), groups[i]);
    }
  }

  // ---------------------------------------------------------------- what a tick does

  /** The multiple of the window at `t` or next to it towards 0. */
  function Rounded(window: pos, t: int): int {
    if t >= 0 then t / window * window else -((-t) / window * window)
  }

  /** An entry holds data of a window that ended before the cutoff. */
  predicate Over(window: pos, lastSeen: int, cutoff: int) {
    lastSeen != 0 && Rounded(window, lastSeen) + window < cutoff
  }

  /** When a tick flushes, and the label it sends, without C's remainder. */
  lemma FlushInPlainTerms(window: pos, lastSeen: int, cutoff: int)
    ensures Flushes(window, lastSeen, cutoff) <==> Over(window, lastSeen, cutoff)
    ensures Stamp(window, lastSeen) == Rounded(window, lastSeen) % TWO32
  {
    if lastSeen >= 0 {
      W.WinStartBounds(window, lastSeen);
    } else {
      W.WinStartBelow(window, lastSeen);
    }
  }

  lemma OverHasData(window: pos, lastSeen: int, cutoff: int)
    requires Over(window, lastSeen, cutoff)
    ensures lastSeen != 0
  {
  }

  /** The label of a group in range, without C's remainder. */
  lemma StampInPlainTerms<P>(window: pos, g: seq<W.Item<P>>)
    requires TsInRange(g) && g != []
    ensures Stamp(window, LastTs(g)) == Last(g).ts / window * window
  {
    hide Stamp, W.WinStart;
    StampInRange(window, Last(g).ts);
    W.WinStartBounds(window, Last(g).ts);
  }
}
