/**
 The bolo2pg dispatcher: it forwards state broadcasts to the database inserters, except OK states of
 names it has already heard of.  Dropping them is safe because of what the kernel guarantees.
 */
module Dispatchers {
  import opened Basics
  import opened Streams
  import opened States
  import opened Kernels
  import opened KernelTheorems

  class Dispatcher {
    var seen: set<string>
    var inserts: seq<Broadcast>  // pushed to the insert queue
    var skips: nat               // `dispatch.skips`, counted on the monitor socket

    constructor ()
      ensures seen == {} && inserts == [] && skips == 0
    {
      seen, inserts, skips := {}, [], 0;
    }

    /** The reactor callback for one broadcast PDU. */
    method React(pdu: Broadcast)
      modifies this
      ensures var (seen', out) := Dispatch(old(seen), pdu);
              && seen == seen' && inserts == old(inserts) + out
              && skips == old(skips) + (if pdu.StateCast? && out == [] then 1 else 0)
    {
      match pdu {
        case StateCast(name, _, _, status, _) =>
          if status != OK || name !in seen {
            seen := seen + {name};
            inserts := inserts + [pdu];
          } else {
            skips := skips + 1;
          }
        case TransitionCast(name, lastSeen, stale, status, summary) =>
          seen := seen + {name};
          inserts := inserts + [StateCast(name, lastSeen, stale, status, summary)];
        case EventCast(_, _, _) =>
          inserts := inserts + [pdu];
        case _ =>
      }
    }

    /** The reactor loop over everything received. */
    method Go(pdus: seq<Broadcast>)
      modifies this
      ensures (seen, inserts) == (DispatchAll(old(seen), pdus).0, old(inserts) + DispatchAll(old(seen), pdus).1)
      ensures skips + |DispatchAll(old(seen), pdus).1| == old(skips) + Taken(pdus)
    {
      for i := 0 to |pdus|
        invariant seen == DispatchAll(old(seen), pdus[..i]).0
        invariant inserts == old(inserts) + DispatchAll(old(seen), pdus[..i]).1
        invariant skips + |DispatchAll(old(seen), pdus[..i]).1| == old(skips) + Taken(pdus[..i])
      {
        assert Front(pdus[..i + 1]) == pdus[..i] && Last(pdus[..i + 1]) == pdus[i];
        React(pdus[i]);
      }
      assert pdus[..|pdus|] == pdus;
    }
  }

  /** What one PDU does to the set of names heard of, and what it forwards. */
  function Dispatch(seen: set<string>, pdu: Broadcast): (set<string>, seq<Broadcast>) {
    match pdu
    case StateCast(name, _, _, status, _) => if status == OK && name in seen then (seen, []) else (seen + {name}, [pdu])
    case TransitionCast(name, lastSeen, stale, status, summary) =>
      (seen + {name}, [StateCast(name, lastSeen, stale, status, summary)])
    case EventCast(_, _, _) => (seen, [pdu])
    case _ => (seen, [])
  }

  function DispatchAll(seen: set<string>, pdus: seq<Broadcast>): (set<string>, seq<Broadcast>) {
    if pdus == [] then (seen, [])
    else
      var (seen1, out) := DispatchAll(seen, Front(pdus));
      var (seen2, more) := Dispatch(seen1, Last(pdus));
      (seen2, out + more)
  }

  /** The number of PDUs the dispatcher is there for: states, transitions and events. */
  function Taken(pdus: seq<Broadcast>): nat {
    if pdus == [] then 0
    else
      var pdu := Last(pdus);
      Taken(Front(pdus)) + (if pdu.StateCast? || pdu.TransitionCast? || pdu.EventCast? then 1 else 0)
  }

  // ---------------------------------------------------------------- what is forwarded

  /** A STATE or TRANSITION of the name is among the PDUs. */
  ghost predicate HeardOf(pdus: seq<Broadcast>, name: string) {
    exists b :: b in pdus && (b.StateCast? || b.TransitionCast?) && b.name == name
  }

  /** What is forwarded of a PDU that comes after `before`: an OK STATE only if the name is new. */
  ghost function Forwarding(before: seq<Broadcast>, pdu: Broadcast): seq<Broadcast> {
    if pdu.EventCast? then [pdu]
    else if pdu.TransitionCast? then [StateCast(pdu.name, pdu.lastSeen, pdu.stale, pdu.status, pdu.summary)]
    else if pdu.StateCast? && !(pdu.status == OK && HeardOf(before, pdu.name)) then [pdu]
    else []
  }

  ghost function ForwardingAll(pdus: seq<Broadcast>): seq<Broadcast> {
    if pdus == [] then [] else ForwardingAll(Front(pdus)) + Forwarding(Front(pdus), Last(pdus))
  }

  /**
   Forwarded are, in order and with every field as received, all events, all TRANSITIONs as STATEs, and all
   STATEs but those that say OK of a name heard of before.
   */
  lemma {:induction false} ForwardsExactly(pdus: seq<Broadcast>)
    ensures DispatchAll({}, pdus).1 == ForwardingAll(pdus)
    ensures forall name :: name in DispatchAll({}, pdus).0 <==> HeardOf(pdus, name)
  {
    if pdus == [] {
    } else {
      ForwardsExactly(Front(pdus));
      forall name ensures HeardOf(pdus, name) <==> HeardOf(Front(pdus), name) || HeardOf([Last(pdus)], name) {
        HeardMore(Front(pdus), Last(pdus), name);
        FrontLast(pdus);
      }
      assert Last(pdus) in [Last(pdus)];
    }
  }

  lemma HeardMore(before: seq<Broadcast>, pdu: Broadcast, name: string)
    ensures HeardOf(before + [pdu], name) <==> HeardOf(before, name) || HeardOf([pdu], name)
  {
    forall b ensures b in before + [pdu] <==> b in before || b in [pdu] {
    }
  }

  /** The events among the PDUs, in order. */
  function EventsOf(pdus: seq<Broadcast>): seq<Broadcast> {
    if pdus == [] then [] else EventsOf(Front(pdus)) + (if Last(pdus).EventCast? then [Last(pdus)] else [])
  }

  /** Every event received is forwarded once, in order. */
  lemma {:induction false} ForwardsEveryEvent(seen: set<string>, pdus: seq<Broadcast>)
    ensures EventsOf(DispatchAll(seen, pdus).1) == EventsOf(pdus)
  {
    if pdus == [] {
    } else {
      ForwardsEveryEvent(seen, Front(pdus));
      var (seen1, out) := DispatchAll(seen, Front(pdus));
      var more := Dispatch(seen1, Last(pdus)).1;
      if more == [] {
        assert out + more == out;
      } else {
        assert Front(out + more) == out && Last(out + more) == more[0];
      }
    }
  }

  // ---------------------------------------------------------------- status changes

  function Statuses(out: seq<Broadcast>): seq<Status> {
    seq(|out|, i requires 0 <= i < |out| => StatusOf(out[i]))
  }

  /** A sequence of statuses with the repetitions taken out. */
  function Changes(ss: seq<Status>): seq<Status> {
    if ss == [] then []
    else
      var before := Changes(Front(ss));
      if before != [] && Last(before) == Last(ss) then before else before + [Last(ss)]
  }

  lemma LastChange(ss: seq<Status>)
    requires ss != []
    ensures Changes(ss) != [] && Last(Changes(ss)) == Last(ss)
  {
  }

  function StatusChanges(out: seq<Broadcast>): seq<Status> {
    Changes(Statuses(out))
  }

  lemma StatusChangesMore(out: seq<Broadcast>, b: Broadcast)
    ensures var before := StatusChanges(out);
            StatusChanges(out + [b]) ==
            if before != [] && Last(before) == StatusOf(b) then before else before + [StatusOf(b)]
  {
    var ss := Statuses(out + [b]);
    assert Front(ss) == Statuses(out) && Last(ss) == StatusOf(b);
  }

  lemma LastStatusChange(out: seq<Broadcast>)
    requires out != []
    ensures StatusChanges(out) != [] && Last(StatusChanges(out)) == StatusOf(Last(out))
  {
    LastChange(Statuses(out));
  }

  /**
   On a stream that announces returns to OK, what the dispatcher forwards about a name shows the
   same status changes as what it received.
   */
  lemma {:induction false} ForwardsEveryChange(pdus: seq<Broadcast>, name: string)
    requires OkAnnounced(About(pdus, AboutState(name)))
    ensures var (seen, out) := DispatchAll({}, pdus);
            var got, sent := About(pdus, AboutState(name)), About(out, AboutState(name));
            StatusChanges(sent) == StatusChanges(got) && (name in seen <==> got != [])
  {
    hide StatusChanges, OkAnnounced, About, Dispatch;
    if pdus == [] {
      AboutAll([], AboutKeys, AboutState(name));
    } else {
      var before, pdu, topic := Front(pdus), Last(pdus), AboutState(name);
      FrontLast(pdus);
      AnnouncedFront(before, pdu, topic);
      ForwardsEveryChange(before, name);
      var (seen, out) := DispatchAll({}, before);
      ForwardsOneMore(seen, out, About(before, topic), pdu, name);
    }
  }

  /** One more PDU: `got` is what was received about the name, `out` everything forwarded. */
  lemma ForwardsOneMore(seen: set<string>, out: seq<Broadcast>, got: seq<Broadcast>, pdu: Broadcast, name: string)
    requires StatusChanges(About(out, AboutState(name))) == StatusChanges(got) && (name in seen <==> got != [])
    requires TopicOf(pdu) == AboutState(name) ==> OkAnnounced(got + [pdu])
    ensures var (seen', more) := Dispatch(seen, pdu);
            var got' := if TopicOf(pdu) == AboutState(name) then got + [pdu] else got;
            StatusChanges(About(out + more, AboutState(name))) == StatusChanges(got') && (name in seen' <==> got' != [])
  {
    hide StatusChanges, OkAnnounced, About;
    var topic, more := AboutState(name), Dispatch(seen, pdu).1;
    if more == [] {
      assert out + more == out;
      if TopicOf(pdu) == topic {
        SkippedChangesNothing(got, pdu);
      }
    } else {
      assert more == [more[0]];
      AboutMore(out, more, TopicOf(more[0]), topic);
      if TopicOf(pdu) == topic {
        StatusChangesMore(got, pdu);
        StatusChangesMore(About(out, topic), more[0]);
      }
    }
  }

  /** An OK STATE that may be skipped repeats the status before it. */
  lemma SkippedChangesNothing(got: seq<Broadcast>, pdu: Broadcast)
    requires OkAnnounced(got + [pdu]) && got != [] && pdu.StateCast? && pdu.status == OK
    ensures StatusChanges(got + [pdu]) == StatusChanges(got)
  {
    hide StatusChanges, OkAnnounced;
    AnnouncedLast(got, pdu);
    LastStatusChange(got);
    StatusChangesMore(got, pdu);
  }

  lemma AnnouncedLast(got: seq<Broadcast>, pdu: Broadcast)
    requires OkAnnounced(got + [pdu]) && got != [] && pdu.StateCast? && pdu.status == OK
    ensures StatusOf(Last(got)) == OK
  {
    assert (got + [pdu])[|got|] == pdu && (got + [pdu])[|got| - 1] == Last(got);
  }

  lemma AnnouncedFront(before: seq<Broadcast>, pdu: Broadcast, topic: Topic)
    requires OkAnnounced(About(before + [pdu], topic))
    ensures OkAnnounced(About(before, topic))
    ensures About(before + [pdu], topic) ==
            if TopicOf(pdu) == topic then About(before, topic) + [pdu] else About(before, topic)
  {
    assert Front(before + [pdu]) == before && Last(before + [pdu]) == pdu;
    var a, b := About(before + [pdu], topic), About(before, topic);
    assert forall i | 0 <= i < |b| :: a[i] == b[i];
  }

  /**
   The skip rule loses no status change: whenever a fresh dispatcher joins the stream of a kernel,
   for every name the records it forwards show the same status changes as the records it receives,
   so the last record forwarded carries the status of the last record received.
   */
  lemma SkipRuleLosesNoChange(cfg: Config, ins: seq<Stamped>, k: Db, k': Db, join: nat, name: string)
    requires Ran(cfg, ins, k, k') && k.log == [] && join <= |k'.log|
    ensures var received := k'.log[join..];
            var got, sent := About(received, AboutState(name)), About(DispatchAll({}, received).1, AboutState(name));
            && StatusChanges(sent) == StatusChanges(got)
            && (sent == [] <==> got == [])
            && (got != [] ==> StatusOf(Last(sent)) == StatusOf(Last(got)))
  {
    hide StatusChanges, DispatchAll, Ran;
    var received, topic := k'.log[join..], AboutState(name);
    OkIsAnnounced(cfg, ins, k, k', name);
    assert About(k.log, topic) == [];
    assert Since(k, k', topic) == About(k'.log, topic);
    assert k'.log == k'.log[..join] + received;
    AboutConcat(k'.log[..join], received, topic);
    AnnouncedSuffix(About(k'.log[..join], topic), About(received, topic));
    ForwardsEveryChange(received, name);
    var got, sent := About(received, topic), About(DispatchAll({}, received).1, topic);
    NoChanges();
    if got != [] { LastStatusChange(got); }
    if sent != [] { LastStatusChange(sent); }
  }

  lemma NoChanges()
    ensures StatusChanges([]) == []
  {
  }

  lemma AnnouncedSuffix(a: seq<Broadcast>, b: seq<Broadcast>)
    requires OkAnnounced(a + b)
    ensures OkAnnounced(b)
  {
    forall i | 0 < i < |b| && b[i].StateCast? && b[i].status == OK ensures StatusOf(b[i - 1]) == OK {
      assert (a + b)[|a| + i] == b[i] && (a + b)[|a| + i - 1] == b[i - 1];
    }
  }
}
