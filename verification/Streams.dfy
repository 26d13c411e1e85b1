/**
 The kernel's broadcast stream seen by topic, and walks over hash tables in an arbitrary order.
 A walk handles each entry on its own, so a topic sees the same broadcasts whatever the order.
 */
module Streams {
  import opened Basics

  /** What a broadcast is about: the kind of datapoint and its name. */
  datatype Topic = AboutState(name: string) | AboutCounter(name: string) | AboutSample(name: string)
                 | AboutRate(name: string) | AboutEvent(name: string) | AboutKeys

  function TopicOf(b: Broadcast): Topic {
    match b
    case StateCast(name, _, _, _, _) => AboutState(name)
    case TransitionCast(name, _, _, _, _) => AboutState(name)
    case CounterCast(_, name, _) => AboutCounter(name)
    case SampleCast(_, name, _, _, _, _, _, _) => AboutSample(name)
    case RateCast(_, name, _, _) => AboutRate(name)
    case EventCast(_, name, _) => AboutEvent(name)
    case SetKeysCast(_) => AboutKeys
  }

  /** The part of a stream that is about one topic. */
  function About(out: seq<Broadcast>, topic: Topic): seq<Broadcast> {
    if out == [] then []
    else if TopicOf(Last(out)) == topic then About(Front(out), topic) + [Last(out)]
    else About(Front(out), topic)
  }

  lemma {:induction false} AboutConcat(a: seq<Broadcast>, b: seq<Broadcast>, topic: Topic)
    ensures About(a + b, topic) == About(a, topic) + About(b, topic)
  {
    if b == [] {
      assert a + b == a;
    } else {
      assert Front(a + b) == a + Front(b) && Last(a + b) == Last(b);
      AboutConcat(a, Front(b), topic);
    }
  }

  /** A stream that is all about one topic. */
  lemma {:induction false} AboutAll(out: seq<Broadcast>, mine: Topic, topic: Topic)
    requires forall b | b in out :: TopicOf(b) == mine
    ensures About(out, topic) == if topic == mine then out else []
  {
    if out == [] {
    } else {
      assert out == Front(out) + [Last(out)];
      AboutAll(Front(out), mine, topic);
    }
  }

  lemma AboutMore(out: seq<Broadcast>, more: seq<Broadcast>, mine: Topic, topic: Topic)
    requires forall b | b in more :: TopicOf(b) == mine
    ensures About(out + more, topic) == if topic == mine then About(out, topic) + more else About(out, topic)
  {
    AboutConcat(out, more, topic);
    AboutAll(more, mine, topic);
  }

  function Lookup<V>(m: map<string, V>, name: string): Option<V> {
    if name in m then Some(m[name]) else None
  }

  // ---------------------------------------------------------------- walks

  ghost predicate Distinct(order: seq<string>) {
    forall i, j | 0 <= i < j < |order| :: order[i] != order[j]
  }

  lemma DistinctParts(order: seq<string>)
    requires Distinct(order) && order != []
    ensures Distinct(Front(order)) && Last(order) !in Front(order)
    ensures forall n :: n in order <==> n in Front(order) || n == Last(order)
  {
    assert order == Front(order) + [Last(order)];
  }

  /** `order` lists, once each, the names of `was` that a walk has already visited. */
  ghost predicate Walked<V>(order: seq<string>, was: map<string, V>, left: set<string>) {
    && left <= was.Keys
    && (forall n :: n in order <==> n in was && n !in left)
    && Distinct(order)
  }

  /** A table part-way through a walk: names still `left` as they were, the others as they will be. */
  ghost function Midway<V>(was: map<string, V>, will: map<string, V>, left: set<string>): map<string, V> {
    map n | n in was && (n in left || n in will) :: if n in left then was[n] else will[n]
  }

  lemma MidwayEnds<V>(was: map<string, V>, will: map<string, V>)
    requires will.Keys <= was.Keys
    ensures Midway(was, will, was.Keys) == was && Midway(was, will, {}) == will
    ensures Walked([], was, was.Keys)
  {
  }

  lemma MidwayStep<V>(was: map<string, V>, will: map<string, V>, left: set<string>, order: seq<string>, name: string)
    requires Walked(order, was, left) && name in left
    ensures name in was && name in Midway(was, will, left) && Midway(was, will, left)[name] == was[name]
    ensures Midway(was, will, left - {name}) ==
            if name in will then Midway(was, will, left)[name := will[name]] else Midway(was, will, left) - {name}
    ensures Walked(order + [name], was, left - {name})
  {
  }

  /** The broadcasts of a walk: those of each name, in the order the names were visited. */
  function Gather(order: seq<string>, emits: map<string, seq<Broadcast>>): seq<Broadcast> {
    if order == [] then []
    else if Last(order) in emits then Gather(Front(order), emits) + emits[Last(order)]
    else Gather(Front(order), emits)
  }

  lemma GatherStep(order: seq<string>, emits: map<string, seq<Broadcast>>, name: string)
    requires name in emits
    ensures Gather(order + [name], emits) == Gather(order, emits) + emits[name]
  {
    assert Front(order + [name]) == order;
  }

  /** Each name's broadcasts are about that name, as a datapoint of the kind `mk` makes. */
  ghost predicate OwnTopics(emits: map<string, seq<Broadcast>>, mk: string -> Topic) {
    forall n, b | n in emits && b in emits[n] :: TopicOf(b) == mk(n)
  }

  lemma {:induction false} AboutGatherName(order: seq<string>, emits: map<string, seq<Broadcast>>, mk: string -> Topic,
                                           name: string)
    requires OwnTopics(emits, mk) && forall m :: mk(m) == mk(name) ==> m == name
    requires Distinct(order)
    ensures About(Gather(order, emits), mk(name)) == if name in order && name in emits then emits[name] else []
  {
    hide Distinct, About;
    if order == [] {
      AboutAll([], mk(name), mk(name));
    } else {
      var before, last := Front(order), Last(order);
      DistinctParts(order);
      AboutGatherName(before, emits, mk, name);
      if last in emits {
        AboutMore(Gather(before, emits), emits[last], mk(last), mk(name));
        if last == name {
          assert [] + emits[last] == emits[last];
        } else {
          assert mk(last) != mk(name);
        }
      }
    }
  }

  lemma {:induction false} AboutGatherOther(order: seq<string>, emits: map<string, seq<Broadcast>>, mk: string -> Topic,
                                            topic: Topic)
    requires OwnTopics(emits, mk) && forall m :: mk(m) != topic
    ensures About(Gather(order, emits), topic) == []
  {
    if order == [] {
    } else {
      AboutGatherOther(Front(order), emits, mk, topic);
      if Last(order) in emits {
        AboutMore(Gather(Front(order), emits), emits[Last(order)], mk(Last(order)), topic);
      }
    }
  }

  /** What a finished walk added to the stream, topic by topic. */
  lemma WalkIsPointwise<V>(log: seq<Broadcast>, order: seq<string>, was: map<string, V>,
                           emits: map<string, seq<Broadcast>>, mk: string -> Topic)
    requires Walked(order, was, {}) && emits.Keys == was.Keys && OwnTopics(emits, mk)
    requires forall m, n :: mk(m) == mk(n) ==> m == n
    ensures forall n ::
              About(log + Gather(order, emits), mk(n)) == About(log, mk(n)) + (if n in was then emits[n] else [])
    ensures forall topic | (forall m :: mk(m) != topic) :: About(log + Gather(order, emits), topic) == About(log, topic)
  {
    forall n
      ensures About(log + Gather(order, emits), mk(n))
        == About(log, mk(n)) + (if n in was then emits[n] else [])
    {
      AboutConcat(log, Gather(order, emits), mk(n));
      AboutGatherName(order, emits, mk, n);
    }
    forall topic | forall m :: mk(m) != topic ensures About(log + Gather(order, emits), topic) == About(log, topic) {
      AboutConcat(log, Gather(order, emits), topic);
      AboutGatherOther(order, emits, mk, topic);
    }
  }
}
