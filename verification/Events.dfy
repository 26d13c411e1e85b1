/** The event buffer: `buffer_event` in both of its keep modes. */
module Events {
  import opened Basics

  datatype Event = Event(timestamp: i32, name: string, extra: string)

  datatype Keep = KeepNumber | KeepTime

  class EventBuffer {
    var events: seq<Event>
    var count: int

    ghost predicate Valid()
      reads this
    {
      count == |events|
    }

    constructor ()
      ensures Valid() && events == []
    {
      events, count := [], 0;
    }

    /** Appends an event and prunes from the head; with no room configured the event is dropped. */
    method Buffer(ev: Event, max: int, keep: Keep)
      requires Valid()
      modifies this
      ensures Valid()
      ensures events == Buffered(old(events), ev, max, keep)
    {
      if max > 0 {
        events, count := events + [ev], count + 1;
        if keep == KeepNumber {
          while count > max
            invariant Valid() && |events| <= |old(events)| + 1
            invariant events == (old(events) + [ev])[|old(events)| + 1 - |events|..]
            invariant |old(events)| + 1 <= max ==> |events| == |old(events)| + 1
            invariant max < |old(events)| + 1 ==> max <= |events|
          {
            events, count := events[1..], count - 1;
          }
        } else {
          var now := ev.timestamp;
          while true
            invariant Valid() && events != [] && Last(events) == ev
            invariant Newer(events, now - max) == Newer(old(events) + [ev], now - max)
            decreases |events|
          {
            if events[0].timestamp > now - max {
              break;
            }
            events, count := events[1..], count - 1;
          }
        }
      }
    }
  }

  /** Drops events from the head while they are no newer than `cutoff`. */
  function Newer(events: seq<Event>, cutoff: int): seq<Event> {
    if events == [] || events[0].timestamp > cutoff then events else Newer(events[1..], cutoff)
  }

  /** What is dropped is the events up to the first newer one, wherever newer ones are. */
  lemma {:induction false} NewerIsSuffix(events: seq<Event>, cutoff: int)
    ensures var kept := Newer(events, cutoff);
            && |kept| <= |events| && kept == events[|events| - |kept|..]
            && (kept != [] ==> kept[0].timestamp > cutoff)
            && forall i | 0 <= i < |events| - |kept| :: events[i].timestamp <= cutoff
  {
    if events == [] || events[0].timestamp > cutoff {
    } else {
      NewerIsSuffix(events[1..], cutoff);
      assert forall i | 0 < i < |events| :: events[i] == events[1..][i - 1];
    }
  }

  function Buffered(events: seq<Event>, ev: Event, max: int, keep: Keep): seq<Event> {
    var all := events + [ev];
    if max <= 0 then events
    else if keep == KeepNumber then all[(if |all| > max then |all| - max else 0)..]
    else Newer(all, ev.timestamp - max)
  }

  /** The buffer after the events `evs` arrived one by one. */
  function BufferAll(evs: seq<Event>, max: int, keep: Keep): seq<Event> {
    if evs == [] then [] else Buffered(BufferAll(Front(evs), max, keep), Last(evs), max, keep)
  }

  lemma {:induction false} NoRoomKeepsNothing(evs: seq<Event>, max: int, keep: Keep)
    requires max <= 0
    ensures BufferAll(evs, max, keep) == []
  {
    if evs == [] {
    } else {
      NoRoomKeepsNothing(Front(evs), max, keep);
    }
  }

  /** In number mode the buffer is the last min(max, received) events, in arrival order. */
  lemma {:induction false} NumberModeKeepsTheLast(evs: seq<Event>, max: int)
    requires max > 0
    ensures BufferAll(evs, max, KeepNumber) == evs[(if |evs| > max then |evs| - max else 0)..]
  {
    if evs == [] {
    } else {
      var before := Front(evs);
      NumberModeKeepsTheLast(before, max);
      var kept := BufferAll(before, max, KeepNumber);
      assert evs == before + [Last(evs)];
      assert kept + [Last(evs)] == evs[|before| - |kept|..];
    }
  }

  ghost predicate Ordered(evs: seq<Event>) {
    forall i, j | 0 <= i < j < |evs| :: evs[i].timestamp <= evs[j].timestamp
  }

  /** The events newer than `cutoff`, wherever they are. */
  function NewerThan(evs: seq<Event>, cutoff: int): seq<Event> {
    if evs == [] then []
    else if evs[0].timestamp > cutoff then [evs[0]] + NewerThan(evs[1..], cutoff)
    else NewerThan(evs[1..], cutoff)
  }

  /** In time mode, with ordered timestamps, the buffer is exactly the received events newer than latest - max. */
  lemma {:induction false} TimeModeKeepsTheNew(evs: seq<Event>, max: int)
    requires max > 0 && evs != [] && Ordered(evs)
    ensures BufferAll(evs, max, KeepTime) == NewerThan(evs, Last(evs).timestamp - max)
  {
    hide Newer, NewerThan, Ordered;
    var before, ev := Front(evs), Last(evs);
    assert evs == before + [ev];
    OrderedParts(evs);
    if before == [] {
      OnlyNew(ev, ev.timestamp - max);
      assert [] + [ev] == evs;
    } else {
      TimeModeKeepsTheNew(before, max);
      KeptThenPruned(before, ev, Last(before).timestamp - max, ev.timestamp - max);
    }
  }

  lemma OrderedParts(evs: seq<Event>)
    requires Ordered(evs) && evs != []
    ensures Ordered(Front(evs)) && Ordered(evs[1..])
    ensures |evs| > 1 ==> Last(Front(evs)).timestamp <= Last(evs).timestamp && evs[0].timestamp <= evs[1].timestamp
  {
    assert forall i | 0 <= i < |evs| - 1 :: Front(evs)[i] == evs[i] && evs[1..][i] == evs[i + 1];
  }

  lemma OnlyNew(ev: Event, cutoff: int)
    requires ev.timestamp > cutoff
    ensures Newer([ev], cutoff) == [ev] == NewerThan([ev], cutoff)
  {
  }

  lemma {:induction false} KeptThenPruned(before: seq<Event>, ev: Event, low: int, high: int)
    requires Ordered(before + [ev]) && low <= high
    ensures Newer(NewerThan(before, low) + [ev], high) == NewerThan(before + [ev], high)
  {
    hide Ordered;
    var all := before + [ev];
    if before == [] {
      assert NewerThan(before, low) + [ev] == all;
      NewerDropsOld(all, high);
    } else {
      var rest := before[1..];
      assert all[1..] == rest + [ev];
      OrderedParts(all);
      assert Front(all) == before;
      KeptThenPruned(rest, ev, low, high);
      assert all[0] == before[0];
      if before[0].timestamp > low {
        var kept := NewerThan(rest, low);
        assert ([before[0]] + kept) + [ev] == [before[0]] + (kept + [ev]);
        assert ([before[0]] + (kept + [ev]))[1..] == kept + [ev];
        if before[0].timestamp > high {
          AllNewer(all, low);
          AllNewer(before, low);
          AllNewer(all, high);
        }
      }
    }
  }

  /** On ordered events, pruning the head is filtering. */
  lemma {:induction false} NewerDropsOld(evs: seq<Event>, cutoff: int)
    requires Ordered(evs)
    ensures Newer(evs, cutoff) == NewerThan(evs, cutoff)
  {
    hide Ordered;
    if evs == [] {
    } else {
      OrderedParts(evs);
      if evs[0].timestamp > cutoff {
        AllNewer(evs, cutoff);
      } else {
        NewerDropsOld(evs[1..], cutoff);
      }
    }
  }

  lemma {:induction false} AllNewer(evs: seq<Event>, cutoff: int)
    requires evs != [] ==> Ordered(evs) && evs[0].timestamp > cutoff
    ensures NewerThan(evs, cutoff) == evs
  {
    hide Ordered;
    if evs == [] {
    } else {
      var rest := evs[1..];
      OrderedParts(evs);
      AllNewer(rest, cutoff);
      assert evs == [evs[0]] + rest;
    }
  }
}
