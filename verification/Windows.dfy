/**
 Tumbling windows over one metric, in the simplest form: a machine that keeps the items of the
 window being filled and a list of the windows it has closed.  The kernel's counters, samples and
 rates keep only a summary of those items; their modules show that they simulate this machine.
 */
module Windows {
  import opened Basics

  type pos = n: int | 0 < n witness 1

  /** C's remainder, which takes the sign of the dividend. */
  function Rem(a: int, b: pos): int {
    if a >= 0 then a % b else -((-a) % b)
  }

  function WinStart(w: pos, t: int): int { t - Rem(t, w) }

  function WinEnd(w: pos, t: int): int { WinStart(w, t) + w }

  /** On non-negative times, a window is the half-open interval [start, start + w) around the time. */
  lemma WinStartBounds(w: pos, t: int)
    requires t >= 0
    ensures 0 <= WinStart(w, t) <= t < WinEnd(w, t)
    ensures WinStart(w, t) == t / w * w && WinEnd(w, t) == (t / w + 1) * w
  {
    assert t == t / w * w + t % w;
    assert 0 <= t / w * w;
    assert (t / w + 1) * w == t / w * w + w;
  }

  /** Below 0, a window is the interval of the same length that ends where the rounded-up time says. */
  lemma WinStartBelow(w: pos, t: int)
    requires t < 0
    ensures WinStart(w, t) == -((-t) / w * w) && WinEnd(w, t) == w - (-t) / w * w
  {
    WinStartBounds(w, -t);
  }

  lemma MultiplesApart(w: pos, a: int, b: int)
    requires a < b
    ensures a * w + w <= b * w
  {
    assert b * w == (b - a - 1) * w + a * w + w;
    assert (b - a - 1) * w >= 0;
  }

  /** Windows are ordered like the times in them, and a time past the end of a window starts a later one. */
  lemma WinStartMonotone(w: pos, s: int, t: int)
    requires 0 <= s <= t
    ensures WinStart(w, s) <= WinStart(w, t)
    ensures WinEnd(w, s) <= t ==> WinStart(w, s) < WinStart(w, t)
  {
    WinStartBounds(w, s);
    WinStartBounds(w, t);
    if t / w < s / w {
      MultiplesApart(w, t / w, s / w);
    } else if t / w > s / w {
      MultiplesApart(w, s / w, t / w);
    }
  }

  /** C's remainder rounds negative times up, so their windows start at or before 0. */
  lemma WinStartSigns(w: pos, t: int)
    ensures t < 0 ==> WinStart(w, t) <= 0
    ensures w <= t ==> WinStart(w, t) > 0
  {
    if t >= 0 {
      WinStartBounds(w, t);
    } else {
      WinStartBounds(w, -t);
    }
  }

  datatype Item<+P> = Item(ts: int, payload: P)

  /** What can happen to a metric: a submission, or a flush of the windows that ended before `cutoff`. */
  datatype Op<+P> = Submit(item: Item<P>) | Flush(cutoff: int)

  datatype Win<+P> = Win(closed: seq<seq<Item<P>>>, pending: seq<Item<P>>)

  /** A group is labelled with the window of its last item. */
  function Label<P>(w: pos, g: seq<Item<P>>): int
    requires g != []
  {
    WinStart(w, Last(g).ts)
  }

  function Step<P>(w: pos, s: Win<P>, op: Op<P>): Win<P> {
    match op
    case Submit(it) =>
      if s.pending != [] && Label(w, s.pending) != WinStart(w, it.ts) then
        Win(s.closed + [s.pending], [it])
      else
        s.(pending := s.pending + [it])
    case Flush(cutoff) =>
      if s.pending != [] && WinEnd(w, Last(s.pending).ts) < cutoff then
        Win(s.closed + [s.pending], [])
      else
        s
  }

  function Run<P>(w: pos, ops: seq<Op<P>>): Win<P> {
    if ops == [] then Win([], []) else Step(w, Run(w, Front(ops)), Last(ops))
  }

  /** The items submitted, in arrival order. */
  function Items<P>(ops: seq<Op<P>>): seq<Item<P>> {
    if ops == [] then []
    else Items(Front(ops)) + (if Last(ops).Submit? then [Last(ops).item] else [])
  }

  /** The part of `items` whose timestamp falls in the window starting at `start`. */
  function InWindow<P>(w: pos, items: seq<Item<P>>, start: int): seq<Item<P>> {
    if items == [] then []
    else InWindow(w, Front(items), start) + (if WinStart(w, Last(items).ts) == start then [Last(items)] else [])
  }

  function NotInWindow<P>(w: pos, items: seq<Item<P>>, start: int): seq<Item<P>> {
    if items == [] then []
    else NotInWindow(w, Front(items), start) + (if WinStart(w, Last(items).ts) != start then [Last(items)] else [])
  }

  /** All items of the groups labelled `start`, in closing order. */
  function Labelled<P>(w: pos, groups: seq<seq<Item<P>>>, start: int): seq<Item<P>> {
    if groups == [] then []
    else Labelled(w, Front(groups), start) + Part(w, Last(groups), start)
  }

  function Part<P>(w: pos, g: seq<Item<P>>, start: int): seq<Item<P>> {
    if g != [] && Label(w, g) == start then g else []
  }

  // ---------------------------------------------------------------- conservation, in any order

  /**
   Whatever the interleaving of submissions and flushes and however timestamps jump about, what was
   closed under label `start`, followed by the pending group if it belongs there, is exactly the
   sequence of submitted items whose timestamp falls in that window.
   */
  lemma {:induction false} Conservation<P>(w: pos, ops: seq<Op<P>>, start: int)
    ensures var s := Run(w, ops);
            Labelled(w, s.closed, start) + Part(w, s.pending, start) == InWindow(w, Items(ops), start)
  {
    hide WinStart;
    if ops == [] {
    } else {
      Conservation(w, Front(ops), start);
      StepConserves(w, Run(w, Front(ops)), Last(ops), start);
      if Last(ops).Submit? {
        var items := Items(ops);
        assert Front(items) == Items(Front(ops)) && Last(items) == Last(ops).item;
      } else {
        assert Items(ops) == Items(Front(ops));
      }
    }
  }

  lemma StepConserves<P>(w: pos, s: Win<P>, op: Op<P>, start: int)
    ensures var s' := Step(w, s, op);
            Labelled(w, s'.closed, start) + Part(w, s'.pending, start)
            == Labelled(w, s.closed, start) + Part(w, s.pending, start)
               + (if op.Submit? && WinStart(w, op.item.ts) == start then [op.item] else [])
  {
    hide WinStart;
    var grown := s.closed + [s.pending];
    assert Front(grown) == s.closed;
    if op.Submit? {
      var it := op.item;
      assert Last(s.pending + [it]) == it;
      assert Last([it]) == it;
    }
  }

  // ---------------------------------------------------------------- exactly once, when punctual

  /** A batch group-by: the first item's window with everything that falls in it, then the rest. */
  function GroupBy<P>(w: pos, items: seq<Item<P>>): seq<seq<Item<P>>>
    decreases |items|
  {
    if items == [] then []
    else
      var start := WinStart(w, items[0].ts);
      Removes(w, items, start);
      [InWindow(w, items, start)] + GroupBy(w, NotInWindow(w, items, start))
  }

  lemma {:induction false} Removes<P>(w: pos, items: seq<Item<P>>, start: int)
    ensures |NotInWindow(w, items, start)| <= |items|
    ensures items != [] && WinStart(w, items[0].ts) == start ==> |NotInWindow(w, items, start)| < |items|
  {
    if items == [] {
    } else {
      Removes(w, Front(items), start);
    }
  }

  /** Closed windows followed by the pending one, if any. */
  function Groups<P>(s: Win<P>): seq<seq<Item<P>>> {
    if s.pending == [] then s.closed else s.closed + [s.pending]
  }

  /** An operation together with the kernel clock at the time it is processed. */
  datatype Timed<+P> = Timed(now: int, op: Op<P>)

  function Ops<P>(tops: seq<Timed<P>>): seq<Op<P>> {
    seq(|tops|, i requires 0 <= i < |tops| => tops[i].op)
  }

  /**
   The clock never runs backwards, timestamps never decrease, a submission is at most `grace` late,
   and a flush closes what ended more than `grace` ago.
   */
  ghost predicate Punctual<P>(grace: int, tops: seq<Timed<P>>) {
    && (forall i, j | 0 <= i < j < |tops| :: tops[i].now <= tops[j].now)
    && (forall i, j | 0 <= i < j < |tops| && tops[i].op.Submit? && tops[j].op.Submit? ::
          tops[i].op.item.ts <= tops[j].op.item.ts)
    && (forall i | 0 <= i < |tops| && tops[i].op.Submit? ::
          tops[i].op.item.ts >= 0 && tops[i].op.item.ts >= tops[i].now - grace)
    && (forall i | 0 <= i < |tops| && tops[i].op.Flush? :: tops[i].op.cutoff == tops[i].now - grace)
  }

  ghost predicate Homogeneous<P>(w: pos, g: seq<Item<P>>) {
    g != [] && forall i | 0 <= i < |g| :: g[i].ts >= 0 && WinStart(w, g[i].ts) == Label(w, g)
  }

  ghost predicate Increasing<P>(w: pos, groups: seq<seq<Item<P>>>) {
    && (forall i | 0 <= i < |groups| :: Homogeneous(w, groups[i]))
    && (forall i, j | 0 <= i < j < |groups| :: Label(w, groups[i]) < Label(w, groups[j]))
  }

  /** `t` can still be submitted without landing in a window already closed, or behind the pending one. */
  ghost predicate Admits<P>(w: pos, s: Win<P>, t: int) {
    && (s.closed != [] && Last(s.closed) != [] ==> Label(w, Last(s.closed)) < WinStart(w, t))
    && (s.pending != [] ==> Label(w, s.pending) <= WinStart(w, t))
  }

  lemma IncreasingAppend<P>(w: pos, gs: seq<seq<Item<P>>>, g: seq<Item<P>>)
    requires Increasing(w, gs) && Homogeneous(w, g)
    requires gs != [] ==> Label(w, Last(gs)) < Label(w, g)
    ensures Increasing(w, gs + [g])
  {
    var all := gs + [g];
    assert forall i | 0 <= i < |gs| :: all[i] == gs[i] && Homogeneous(w, gs[i]);
    forall i, j | 0 <= i < j < |all|
      ensures Label(w, all[i]) < Label(w, all[j])
    {
      if j == |gs| && i < |gs| - 1 {
        assert Label(w, gs[i]) < Label(w, gs[|gs| - 1]);
      }
    }
  }

  lemma IncreasingFront<P>(w: pos, gs: seq<seq<Item<P>>>, g: seq<Item<P>>)
    requires Increasing(w, gs + [g])
    ensures Increasing(w, gs) && Homogeneous(w, g)
    ensures gs != [] ==> Last(gs) != [] && Label(w, Last(gs)) < Label(w, g)
  {
    var all := gs + [g];
    assert forall i | 0 <= i < |gs| :: gs[i] == all[i];
    assert all[|gs|] == g;
  }

  lemma SubmitIncreases<P>(w: pos, s: Win<P>, it: Item<P>, t: int)
    requires Increasing(w, Groups(s)) && Admits(w, s, it.ts)
    requires 0 <= it.ts <= t
    ensures var s' := Step(w, s, Submit(it)); Increasing(w, Groups(s')) && Admits(w, s', t)
  {
    WinStartMonotone(w, it.ts, t);
    var s' := Step(w, s, Submit(it));
    assert Last(s'.pending) == it;
    if s.pending == [] {
      assert s.closed != [] ==> Homogeneous(w, Last(s.closed));
      IncreasingAppend(w, s.closed, s'.pending);
    } else {
      IncreasingFront(w, s.closed, s.pending);
      if Label(w, s.pending) != WinStart(w, it.ts) {
        IncreasingAppend(w, s'.closed, s'.pending);
      } else {
        assert Homogeneous(w, s'.pending);
        IncreasingAppend(w, s.closed, s'.pending);
      }
    }
  }

  lemma FlushIncreases<P>(w: pos, s: Win<P>, cutoff: int, t: int)
    requires Increasing(w, Groups(s)) && Admits(w, s, t)
    requires t >= 0 && cutoff <= t
    ensures var s' := Step(w, s, Flush(cutoff)); Groups(s') == Groups(s) && Admits(w, s', t)
  {
    if s.pending != [] && WinEnd(w, Last(s.pending).ts) < cutoff {
      assert s.pending == Last(Groups(s));
      assert Homogeneous(w, s.pending);
      WinStartBounds(w, Last(s.pending).ts);
      WinStartMonotone(w, Last(s.pending).ts, t);
    }
  }

  lemma {:induction false} PunctualRun<P>(w: pos, grace: int, tops: seq<Timed<P>>, t: int)
    requires Punctual(grace, tops)
    requires t >= 0
    requires forall i | 0 <= i < |tops| :: t >= tops[i].now - grace
    requires forall i | 0 <= i < |tops| && tops[i].op.Submit? :: t >= tops[i].op.item.ts
    ensures Increasing(w, Groups(Run(w, Ops(tops))))
    ensures Admits(w, Run(w, Ops(tops)), t)
  {
    if tops == [] {
    } else {
      var before, last := Front(tops), Last(tops);
      assert Front(Ops(tops)) == Ops(before);
      match last.op
      case Submit(it) =>
        PunctualRun(w, grace, before, it.ts);
        SubmitIncreases(w, Run(w, Ops(before)), it, t);
      case Flush(cutoff) =>
        PunctualRun(w, grace, before, t);
        FlushIncreases(w, Run(w, Ops(before)), cutoff, t);
    }
  }

  function Flatten<P>(groups: seq<seq<Item<P>>>): seq<Item<P>> {
    if groups == [] then [] else groups[0] + Flatten(groups[1..])
  }

  lemma {:induction false} FlattenAppend<P>(gs: seq<seq<Item<P>>>, g: seq<Item<P>>)
    ensures Flatten(gs + [g]) == Flatten(gs) + g
  {
    if gs == [] {
      assert ([] + [g])[1..] == [];
    } else {
      FlattenAppend(gs[1..], g);
      assert (gs + [g])[1..] == gs[1..] + [g];
    }
  }

  lemma FlattenNone<P>()
    ensures Flatten<P>([]) == []
  {
  }

  /** The groups, read in order, are the submitted items: nothing is lost, repeated or reordered. */
  lemma {:induction false} GroupsCoverItems<P>(w: pos, ops: seq<Op<P>>)
    ensures Flatten(Groups(Run(w, ops))) == Items(ops)
  {
    hide WinStart, Flatten;
    if ops == [] {
      assert Flatten<P>([]) == [] by { FlattenNone<P>(); }
    } else {
      GroupsCoverItems(w, Front(ops));
      var s, s' := Run(w, Front(ops)), Run(w, ops);
      FlattenAppend(s.closed, s.pending);
      assert Flatten(Groups(s)) == Flatten(s.closed) + s.pending;
      FlattenAppend(s'.closed, s'.pending);
      assert Flatten(Groups(s')) == Flatten(s'.closed) + s'.pending;
    }
  }

  lemma {:induction false} InWindowConcat<P>(w: pos, a: seq<Item<P>>, b: seq<Item<P>>, start: int)
    ensures InWindow(w, a + b, start) == InWindow(w, a, start) + InWindow(w, b, start)
    ensures NotInWindow(w, a + b, start) == NotInWindow(w, a, start) + NotInWindow(w, b, start)
  {
    hide WinStart;
    if b == [] {
      assert a + b == a;
    } else {
      assert Front(a + b) == a + Front(b) && Last(a + b) == Last(b);
      InWindowConcat(w, a, Front(b), start);
      var x, y, z := InWindow(w, a, start), InWindow(w, Front(b), start), InWindow(w, b, start);
      assert WinStart(w, Last(b).ts) == start ==> x + z == (x + y) + [Last(b)];
      var x', y', z' := NotInWindow(w, a, start), NotInWindow(w, Front(b), start), NotInWindow(w, b, start);
      assert WinStart(w, Last(b).ts) != start ==> x' + z' == (x' + y') + [Last(b)];
    }
  }

  lemma {:induction false} AllInside<P>(w: pos, g: seq<Item<P>>, start: int)
    requires forall i | 0 <= i < |g| :: WinStart(w, g[i].ts) == start
    ensures InWindow(w, g, start) == g && NotInWindow(w, g, start) == []
  {
    hide WinStart;
    if g == [] {
    } else {
      assert forall i | 0 <= i < |g| - 1 :: Front(g)[i] == g[i];
      assert Last(g) == g[|g| - 1];
      AllInside(w, Front(g), start);
      FrontLast(g);
    }
  }

  lemma {:induction false} AllOutside<P>(w: pos, g: seq<Item<P>>, start: int)
    requires forall i | 0 <= i < |g| :: WinStart(w, g[i].ts) != start
    ensures InWindow(w, g, start) == [] && NotInWindow(w, g, start) == g
  {
    hide WinStart;
    if g == [] {
    } else {
      assert forall i | 0 <= i < |g| - 1 :: Front(g)[i] == g[i];
      assert Last(g) == g[|g| - 1];
      AllOutside(w, Front(g), start);
      FrontLast(g);
    }
  }

  lemma {:induction false} LaterGroupsStayOut<P>(w: pos, groups: seq<seq<Item<P>>>, start: int)
    requires forall i | 0 <= i < |groups| :: Homogeneous(w, groups[i]) && Label(w, groups[i]) != start
    ensures InWindow(w, Flatten(groups), start) == []
    ensures NotInWindow(w, Flatten(groups), start) == Flatten(groups)
  {
    hide WinStart;
    if groups == [] {
    } else {
      assert Homogeneous(w, groups[0]);
      LaterGroupsStayOut(w, groups[1..], start);
      AllOutside(w, groups[0], start);
      InWindowConcat(w, groups[0], Flatten(groups[1..]), start);
    }
  }

  lemma IncreasingRest<P>(w: pos, groups: seq<seq<Item<P>>>)
    requires Increasing(w, groups) && groups != []
    ensures Homogeneous(w, groups[0]) && Increasing(w, groups[1..])
    ensures forall i | 0 <= i < |groups[1..]| ::
              Homogeneous(w, groups[1..][i]) && Label(w, groups[1..][i]) != Label(w, groups[0])
  {
    var rest := groups[1..];
    assert forall i | 0 <= i < |rest| :: rest[i] == groups[i + 1] && Homogeneous(w, groups[i + 1]);
    assert forall i | 0 < i < |groups| :: Label(w, groups[0]) < Label(w, groups[i]);
  }

  lemma {:induction false} GroupByOfIncreasing<P>(w: pos, groups: seq<seq<Item<P>>>)
    requires Increasing(w, groups)
    ensures GroupBy(w, Flatten(groups)) == groups
  {
    hide WinStart, InWindow, NotInWindow, Increasing;
    if groups == [] {
    } else {
      var g, rest := groups[0], groups[1..];
      IncreasingRest(w, groups);
      var start := Label(w, g);
      AllInside(w, g, start);
      LaterGroupsStayOut(w, rest, start);
      InWindowConcat(w, g, Flatten(rest), start);
      GroupByOfIncreasing(w, rest);
      assert Flatten(groups) == g + Flatten(rest);
      assert InWindow(w, Flatten(groups), start) == g && NotInWindow(w, Flatten(groups), start) == Flatten(rest);
      assert Flatten(groups)[0] == g[0] && groups == [g] + rest;
    }
  }

  /**
   Exactly-once windows: when submissions are punctual, labels strictly increase and the closed
   groups followed by the pending one are the batch group-by of everything submitted.
   */
  lemma ExactlyOnce<P>(w: pos, grace: int, tops: seq<Timed<P>>)
    requires Punctual(grace, tops)
    ensures var groups := Groups(Run(w, Ops(tops)));
            Increasing(w, groups) && groups == GroupBy(w, Items(Ops(tops)))
  {
    var t := Horizon(grace, tops);
    PunctualRun(w, grace, tops, t);
    GroupsCoverItems(w, Ops(tops));
    GroupByOfIncreasing(w, Groups(Run(w, Ops(tops))));
  }

  /** The groups whose window ended before the cutoff, or was followed by another: all, or all but the last. */
  function Ended<P>(w: pos, groups: seq<seq<Item<P>>>, cutoff: int): seq<seq<Item<P>>> {
    if groups == [] || Last(groups) == [] || Last(Last(groups)).ts / w * w + w < cutoff then groups else Front(groups)
  }

  /** Where nothing is pending, the last window was closed by a flush, so it ended before the cutoff of that flush. */
  lemma {:induction false} IdleHasEnded<P>(w: pos, tops: seq<Timed<P>>, cutoff: int)
    requires forall i | 0 <= i < |tops| && tops[i].op.Flush? :: tops[i].op.cutoff <= cutoff
    ensures var s := Run(w, Ops(tops));
            s.pending == [] && s.closed != [] ==> Last(s.closed) != [] && WinEnd(w, Last(Last(s.closed)).ts) < cutoff
  {
    hide WinEnd;
    if tops == [] {
    } else {
      assert Front(Ops(tops)) == Ops(Front(tops)) && Last(Ops(tops)) == Last(tops).op;
      assert Last(tops) == tops[|tops| - 1];
      IdleHasEnded(w, Front(tops), cutoff);
    }
  }

  /**
   Windows on time: right after a flush at `now`, the closed groups are those of the batch group-by whose
   window ended more than `grace` ago, or was followed by another; none of them is still pending.
   */
  lemma FlushedOnTime<P>(w: pos, grace: int, tops: seq<Timed<P>>, now: int)
    requires Punctual(grace, tops + [Timed(now, Flush(now - grace))])
    ensures var ops := Ops(tops + [Timed(now, Flush(now - grace))]);
            Run(w, ops).closed == Ended(w, GroupBy(w, Items(ops)), now - grace)
  {
    hide WinStart, WinEnd, GroupBy, Punctual;
    var all := tops + [Timed(now, Flush(now - grace))];
    var before, s := Run(w, Ops(tops)), Run(w, Ops(all));
    assert Front(Ops(all)) == Ops(tops) && Last(Ops(all)) == Flush(now - grace);
    ExactlyOnce(w, grace, all);
    assert forall i | 0 <= i < |all| && all[i].op.Flush? :: all[i].op.cutoff <= now - grace by {
      FlushesEarlier(grace, tops, now);
    }
    IdleHasEnded(w, all, now - grace);
    var groups := Groups(s);
    if groups != [] {
      var last := Last(groups);
      assert Homogeneous(w, groups[|groups| - 1]);
      assert Last(last) == last[|last| - 1];
      EndInPlainTerms(w, Last(last).ts);
      if s.pending != [] {
        assert s == before && last == s.pending && Front(groups) == s.closed;
      }
    }
  }

  lemma FlushesEarlier<P>(grace: int, tops: seq<Timed<P>>, now: int)
    requires Punctual(grace, tops + [Timed(now, Flush(now - grace))])
    ensures var all := tops + [Timed(now, Flush(now - grace))];
            forall i | 0 <= i < |all| && all[i].op.Flush? :: all[i].op.cutoff <= now - grace
  {
    var all := tops + [Timed(now, Flush(now - grace))];
    assert all[|tops|].now == now;
  }

  lemma EndInPlainTerms(w: pos, t: int)
    requires t >= 0
    ensures WinEnd(w, t) == t / w * w + w
  {
    WinStartBounds(w, t);
    assert (t / w + 1) * w == t / w * w + w;
  }

  /** A time no earlier than anything in `tops`. */
  ghost function Horizon<P>(grace: int, tops: seq<Timed<P>>): (t: int)
    ensures t >= 0
    ensures forall i | 0 <= i < |tops| :: t >= tops[i].now - grace
    ensures forall i | 0 <= i < |tops| && tops[i].op.Submit? :: t >= tops[i].op.item.ts
  {
    if tops == [] then 0
    else
      assert forall i | 0 <= i < |tops| - 1 :: tops[i] == Front(tops)[i];
      var h := Horizon(grace, Front(tops));
      var a := if h < Last(tops).now - grace then Last(tops).now - grace else h;
      if Last(tops).op.Submit? && a < Last(tops).op.item.ts then Last(tops).op.item.ts else a
  }
}
