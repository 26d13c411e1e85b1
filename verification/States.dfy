/** States of one name: `state_t`, the STATE and FORGET branches of the kernel, and the freshness pass. */
module States {
  import opened Basics
  import opened Machines
  import opened Metrics

  const PENDING: u8 := 4

  datatype StateType = StateType(freshness: u16, status: u8, summary: string)

  datatype State = State(typ: StateType, lastSeen: int, expiry: int, status: u8, summary: string, stale: bool,
                         ignore: bool)

  /** `statstr`: every code above CRITICAL prints as UNKNOWN. */
  function StatStr(code: u8): Status {
    if code == 0 then OK else if code == 1 then WARNING else if code == 2 then CRITICAL else UNKNOWN
  }

  /** What reaches one state: an update, a freshness pass, a FORGET; `now` is the kernel clock. */
  datatype StateOp = Update(ts: u32, code: u8, msg: string, now: int) | Check(now: int) | Drop(ignore: bool)

  function FreshState(typ: StateType, now: int): State {
    State(typ, 0, typ.freshness + now, PENDING, "(state is pending results)", false, false)
  }

  /** The entry `find_state` returns. */
  function FindState(rules: seq<Rule<StateType>>, name: string, s: Option<State>, now: int): Option<State> {
    if s.Some? then s
    else match FirstMatch(rules, name)
      case None => None
      case Some(typ) => Some(FreshState(typ, now))
  }

  function CastTransition(name: string, s: State): Broadcast {
    TransitionCast(name, s.lastSeen, s.stale, StatStr(s.status), s.summary)
  }

  function CastState(name: string, s: State): Broadcast {
    StateCast(name, s.lastSeen, s.stale, StatStr(s.status), s.summary)
  }

  /** A TRANSITION if there was one, then always a STATE. */
  function Report(name: string, s: State, transition: bool): seq<Broadcast> {
    (if transition then [CastTransition(name, s)] else []) + [CastState(name, s)]
  }

  function StateUpdate(name: string, s: State, ts: u32, code: u8, msg: string): (State, seq<Broadcast>) {
    if s.ignore then (s, [])
    else
      var transition := s.stale || s.status != code;
      var s' := s.(status := code, summary := msg, lastSeen := ToI32(ts),
                   expiry := ToI32((ts + s.typ.freshness) % TWO32), stale := false);
      (s', Report(name, s', transition))
  }

  function StateCheck(name: string, s: State, now: int): (State, seq<Broadcast>) {
    if s.expiry > now || s.ignore then (s, [])
    else
      var transition := !s.stale || s.status != s.typ.status;
      var s' := s.(stale := true, expiry := now + s.typ.freshness, status := s.typ.status, summary := s.typ.summary);
      (s', Report(name, s', transition))
  }

  function StateStep(rules: seq<Rule<StateType>>, name: string, s: Option<State>, op: StateOp)
    : (Option<State>, seq<Broadcast>)
  {
    match op
    case Update(ts, code, msg, now) =>
      (match FindState(rules, name, s, now)
       case None => (None, [])
       case Some(found) => var (s', out) := StateUpdate(name, found, ts, code, msg); (Some(s'), out))
    case Check(now) =>
      if s.None? then (None, [])
      else var (s', out) := StateCheck(name, s.value, now); (Some(s'), out)
    case Drop(ignore) =>
      if s.None? || !ignore then (None, []) else (Some(s.value.(ignore := true)), [])
  }

  function StateMachine(rules: seq<Rule<StateType>>, name: string): Machine<State, StateOp> {
    (s, op) => StateStep(rules, name, s, op)
  }

  function StateRun(rules: seq<Rule<StateType>>, name: string, s: Option<State>, ops: seq<StateOp>)
    : (Option<State>, seq<Broadcast>)
  {
    RunOf(StateMachine(rules, name), s, ops)
  }

  /** Codes 0, 1, 2 and any other are labelled OK, WARNING, CRITICAL and UNKNOWN. */
  lemma StatusLabels(code: u8)
    ensures StatStr(code) == [OK, WARNING, CRITICAL, UNKNOWN][if code < 3 then code else 3]
  {
  }

  // ---------------------------------------------------------------- what is said about a state

  /** The STATE that says all a subscriber can know of a state. */
  ghost predicate Says(b: Broadcast, name: string, s: State) {
    && b.StateCast? && b.name == name
    && b.lastSeen == s.lastSeen && b.stale == s.stale && b.summary == s.summary
    && b.status == [OK, WARNING, CRITICAL, UNKNOWN][if s.status < 3 then s.status else 3]
  }

  /** A STATE that says the new state, after a TRANSITION that says the same if one is due. */
  ghost predicate Announces(out: seq<Broadcast>, name: string, s: State, transition: bool) {
    && |out| == (if transition then 2 else 1) && Says(Last(out), name, s)
    && (transition ==> out[0].TransitionCast? && Says(StateCast(out[0].name, out[0].lastSeen, out[0].stale,
                                                                out[0].status, out[0].summary), name, s))
  }

  lemma ReportAnnounces(name: string, s: State, transition: bool)
    ensures Announces(Report(name, s, transition), name, s, transition)
  {
    StatusLabels(s.status);
  }

  /** What an update does to a state that is watched, and what it broadcasts. */
  lemma UpdateAnnounces(rules: seq<Rule<StateType>>, name: string, s: Option<State>, ts: u32, code: u8, msg: string,
                        now: int)
    ensures var found := FindState(rules, name, s, now);
            var (s', out) := StateStep(rules, name, s, Update(ts, code, msg, now));
            if found.None? || found.value.ignore then s' == found && out == []
            else
              && s' == Some(State(found.value.typ, ToI32(ts), ToI32((ts + found.value.typ.freshness) % TWO32), code,
                                  msg, false, false))
              && Announces(out, name, s'.value, found.value.stale || found.value.status != code)
  {
    hide Announces, Report, ToI32;
    var s' := StateStep(rules, name, s, Update(ts, code, msg, now)).0;
    if s'.Some? {
      ReportAnnounces(name, s'.value, true);
      ReportAnnounces(name, s'.value, false);
    }
  }

  /** What a freshness pass does to a state: it marks those expired, and gives them until one interval from now. */
  lemma CheckAnnounces(rules: seq<Rule<StateType>>, name: string, s: State, now: int)
    ensures var (s', out) := StateStep(rules, name, Some(s), Check(now));
            if s.ignore || s.expiry > now then s' == Some(s) && out == []
            else
              && s' == Some(State(s.typ, s.lastSeen, now + s.typ.freshness, s.typ.status, s.typ.summary, true, false))
              && Announces(out, name, s'.value, !s.stale || s.status != s.typ.status)
  {
    hide Announces, Report;
    var s' := StateStep(rules, name, Some(s), Check(now)).0;
    ReportAnnounces(name, s'.value, true);
    ReportAnnounces(name, s'.value, false);
  }

  /** Between FORGETs, the last record about a name says everything about its state as it is. */
  lemma {:induction false} LastRecordSays(rules: seq<Rule<StateType>>, name: string, s: Option<State>,
                                          ops: seq<StateOp>)
    requires forall i | 0 <= i < |ops| :: !ops[i].Drop?
    ensures var (s', out) := StateRun(rules, name, s, ops);
            out != [] ==> s'.Some? && Says(Last(out), name, s'.value)
  {
    hide StateStep, FindState, ToI32;
    if ops == [] {
    } else {
      var before, op := Front(ops), Last(ops);
      assert op == ops[|ops| - 1];
      LastRecordSays(rules, name, s, before);
      var (s1, out1) := StateRun(rules, name, s, before);
      StepSays(rules, name, s1, op);
    }
  }

  lemma StepSays(rules: seq<Rule<StateType>>, name: string, s: Option<State>, op: StateOp)
    requires !op.Drop?
    ensures var (s', out) := StateStep(rules, name, s, op);
            if out == [] then s.Some? ==> s' == s else s'.Some? && Says(Last(out), name, s'.value)
  {
    hide ToI32, Says;
    if op.Update? {
      UpdateAnnounces(rules, name, s, op.ts, op.code, op.msg, op.now);
    } else if s.Some? {
      CheckAnnounces(rules, name, s.value, op.now);
    }
  }

  // ---------------------------------------------------------------- transitions

  /** What a TRANSITION is about; a name not heard of yet counts as fresh and pending. */
  function Condition(s: Option<State>): (bool, u8) {
    if s.None? then (false, PENDING) else (s.value.stale, s.value.status)
  }

  function Transitions(out: seq<Broadcast>): seq<Broadcast> {
    if out == [] then []
    else Transitions(Front(out)) + (if Last(out).TransitionCast? then [Last(out)] else [])
  }

  /** One operation broadcasts one TRANSITION, carrying the new condition, iff the condition changes. */
  lemma TransitionIffChange(rules: seq<Rule<StateType>>, name: string, s: Option<State>, op: StateOp)
    requires !op.Drop?
    ensures var (s', out) := StateStep(rules, name, s, op);
            Transitions(out) == if Condition(s') == Condition(s) then [] else [CastTransition(name, s'.value)]
  {
    hide Report;
    var (s', out) := StateStep(rules, name, s, op);
    if s'.Some? {
      TransitionsOfReport(name, s'.value, false);
      TransitionsOfReport(name, s'.value, true);
    }
  }

  lemma TransitionsOfReport(name: string, s: State, transition: bool)
    ensures Transitions(Report(name, s, transition)) == if transition then [CastTransition(name, s)] else []
  {
    var out := Report(name, s, transition);
    if transition {
      assert out == [CastTransition(name, s), CastState(name, s)];
      var first := [CastTransition(name, s)];
      assert Front(out) == first && Front(first) == [];
      assert Transitions(first) == first;
    } else {
      assert Front(out) == [];
    }
  }

  lemma {:induction false} TransitionsConcat(a: seq<Broadcast>, b: seq<Broadcast>)
    ensures Transitions(a + b) == Transitions(a) + Transitions(b)
  {
    if b == [] {
      assert a + b == a;
    } else {
      assert Front(a + b) == a + Front(b) && Last(a + b) == Last(b);
      TransitionsConcat(a, Front(b));
      assert Last(b).TransitionCast? ==>
        Transitions(a) + (Transitions(Front(b)) + [Last(b)]) == (Transitions(a) + Transitions(Front(b))) + [Last(b)];
    }
  }

  /** What a subscriber that listens to TRANSITIONs only believes about a name. */
  function Replay(out: seq<Broadcast>): (bool, Status) {
    var ts := Transitions(out);
    if ts == [] || !Last(ts).TransitionCast? then (false, UNKNOWN) else (Last(ts).stale, Last(ts).status)
  }

  /** Within one kernel lifetime and without FORGET, TRANSITIONs alone give the current staleness and status. */
  lemma {:induction false} TransitionsSuffice(rules: seq<Rule<StateType>>, name: string, s: Option<State>,
                                              ops: seq<StateOp>)
    requires Condition(s) == (false, PENDING)
    requires forall i | 0 <= i < |ops| :: !ops[i].Drop?
    ensures var (s', out) := StateRun(rules, name, s, ops);
            Replay(out) == (Condition(s').0, StatStr(Condition(s').1))
  {
    if ops == [] {
    } else {
      hide StateStep;
      TransitionsSuffice(rules, name, s, Front(ops));
      var (s1, out1) := StateRun(rules, name, s, Front(ops));
      var (s2, out2) := StateStep(rules, name, s1, Last(ops));
      TransitionIffChange(rules, name, s1, Last(ops));
      TransitionsConcat(out1, out2);
    }
  }

  /** The status a state broadcast carries. */
  function StatusOf(b: Broadcast): Status {
    match b
    case StateCast(_, _, _, status, _) => status
    case TransitionCast(_, _, _, status, _) => status
    case _ => UNKNOWN
  }

  /** Wherever one starts listening, a STATE that says OK follows a record that already said OK. */
  ghost predicate OkAnnounced(out: seq<Broadcast>) {
    forall i | 0 < i < |out| && out[i].StateCast? && out[i].status == OK :: StatusOf(out[i - 1]) == OK
  }

  /**
   The kernel never returns to OK without a TRANSITION: this holds from any initial table entry,
   across stale marks, FORGETs and re-creation.
   */
  lemma {:induction false} ReturnToOkIsAnnounced(rules: seq<Rule<StateType>>, name: string, s: Option<State>,
                                                 ops: seq<StateOp>)
    ensures var (s', out) := StateRun(rules, name, s, ops);
            && OkAnnounced(out)
            && (out != [] && s'.Some? ==> StatusOf(Last(out)) == StatStr(s'.value.status))
            && (forall b | b in out :: (b.StateCast? || b.TransitionCast?) && b.name == name)
  {
    if ops == [] {
    } else {
      ReturnToOkIsAnnounced(rules, name, s, Front(ops));
      var (s1, out1) := StateRun(rules, name, s, Front(ops));
      var (s2, out2) := StateStep(rules, name, s1, Last(ops));
      StepAnnouncesOk(rules, name, s1, Last(ops));
      AnnouncedConcat(out1, out2);
    }
  }

  lemma StepAnnouncesOk(rules: seq<Rule<StateType>>, name: string, s: Option<State>, op: StateOp)
    ensures var (s', out) := StateStep(rules, name, s, op);
            && OkAnnounced(out)
            && (out == [] ==> s'.None? || (s.Some? && s'.value.status == s.value.status))
            && (out != [] ==> s'.Some? && StatusOf(Last(out)) == StatStr(s'.value.status))
            && (out != [] && out[0].StateCast? && out[0].status == OK ==> s.Some? && StatStr(s.value.status) == OK)
            && (forall b | b in out :: (b.StateCast? || b.TransitionCast?) && b.name == name)
  {
  }

  lemma AnnouncedConcat(a: seq<Broadcast>, b: seq<Broadcast>)
    requires OkAnnounced(a) && OkAnnounced(b)
    requires a != [] && b != [] && b[0].StateCast? && b[0].status == OK ==> StatusOf(Last(a)) == OK
    ensures OkAnnounced(a + b)
  {
    var c := a + b;
    forall i | 0 < i < |c| && c[i].StateCast? && c[i].status == OK
      ensures StatusOf(c[i - 1]) == OK
    {
      if i > |a| {
        assert c[i] == b[i - |a|] && c[i - 1] == b[i - |a| - 1];
      }
    }
  }

  // ---------------------------------------------------------------- freshness

  /** An updated state that has not gone stale expires one freshness interval after it was last seen, modulo 2^32. */
  ghost predicate Dated(s: Option<State>) {
    s.Some? && !s.value.stale && s.value.lastSeen != 0 ==>
      && -0x8000_0000 <= s.value.lastSeen
      && s.value.expiry == ToI32((s.value.lastSeen + s.value.typ.freshness) % TWO32)
  }

  lemma {:induction false} DatedRun(rules: seq<Rule<StateType>>, name: string, s: Option<State>, ops: seq<StateOp>)
    requires Dated(s)
    ensures Dated(StateRun(rules, name, s, ops).0)
  {
    if ops == [] {
    } else {
      DatedRun(rules, name, s, Front(ops));
      DatedStep(rules, name, StateRun(rules, name, s, Front(ops)).0, Last(ops));
    }
  }

  lemma DatedStep(rules: seq<Rule<StateType>>, name: string, s: Option<State>, op: StateOp)
    requires Dated(s)
    ensures Dated(StateStep(rules, name, s, op).0)
  {
    if op.Update? && FindState(rules, name, s, op.now).Some? {
      SameWrapped(op.ts, FindState(rules, name, s, op.now).value.typ.freshness);
    }
  }

  /** Storing a timestamp as an int32_t first does not change where an expiry wraps. */
  lemma SameWrapped(ts: u32, freshness: u16)
    ensures (ToI32(ts) + freshness) % TWO32 == (ts + freshness) % TWO32
  {
    if ToI32(ts) != ts {
      var a, b := ToI32(ts) + freshness, ts + freshness;
      assert b == a + TWO32;
    }
  }

  /**
   After a freshness pass at `now`, whatever came before, a state that is not ignored expires in the
   future, and if it is fresh and has been updated it was seen less than one freshness interval ago,
   although expiries wrap.
   */
  lemma FreshnessPass(rules: seq<Rule<StateType>>, name: string, s: Option<State>, ops: seq<StateOp>, now: int)
    requires Dated(s) && now < 0x8000_0000
    ensures var s' := StateRun(rules, name, s, ops + [Check(now)]).0;
            s'.Some? && !s'.value.ignore && s'.value.typ.freshness > 0 ==>
              && s'.value.expiry > now
              && (!s'.value.stale && s'.value.lastSeen != 0 ==> s'.value.lastSeen + s'.value.typ.freshness > now)
  {
    hide ToI32;
    DatedRun(rules, name, s, ops);
    assert Front(ops + [Check(now)]) == ops && Last(ops + [Check(now)]) == Check(now);
    var s' := StateRun(rules, name, s, ops + [Check(now)]).0;
    if s'.Some? && !s'.value.stale && s'.value.lastSeen != 0 && s'.value.expiry > now {
      Unwrapped(s'.value.lastSeen, s'.value.typ.freshness, now);
    }
  }

  /** An expiry that is still ahead is ahead without wrapping too. */
  lemma Unwrapped(lastSeen: int, freshness: u16, now: int)
    requires -0x8000_0000 <= lastSeen && now < 0x8000_0000
    requires ToI32((lastSeen + freshness) % TWO32) > now
    ensures lastSeen + freshness > now
  {
    var at := lastSeen + freshness;
    if at < 0x8000_0000 {
      if at >= 0 {
        assert at % TWO32 == at;
      } else {
        assert at % TWO32 == at + TWO32;
      }
    }
  }

  /**
   However many freshness passes hit a silent state, in whatever order their clocks read, together
   they broadcast one TRANSITION if one of them found it expired and not yet marked, and none otherwise.
   */
  lemma {:induction false} SilentStateGoesStaleOnce(rules: seq<Rule<StateType>>, name: string, s: State,
                                                    ops: seq<StateOp>)
    requires !s.ignore && forall i | 0 <= i < |ops| :: ops[i].Check?
    ensures var (s', out) := StateRun(rules, name, Some(s), ops);
            var expired := exists i | 0 <= i < |ops| :: s.expiry <= ops[i].now;
            var marked := s.stale && s.status == s.typ.status;
            && |Transitions(out)| == (if expired && !marked then 1 else 0)
            && s'.Some? && !s'.value.ignore && s'.value.typ == s.typ
            && (if expired then s'.value.stale && s'.value.status == s.typ.status else s' == Some(s))
  {
    hide StateStep, Transitions, StatStr;
    if ops == [] {
      assert Transitions([]) == [] by { NoTransitions(); }
    } else {
      var before, op := Front(ops), Last(ops);
      SilentStateGoesStaleOnce(rules, name, s, before);
      var (s1, out1) := StateRun(rules, name, Some(s), before);
      var out2 := StateStep(rules, name, s1, op).1;
      CheckMarks(rules, name, s1.value, op.now);
      TransitionIffChange(rules, name, s1, op);
      TransitionsConcat(out1, out2);
      ExpiredLater(s.expiry, ops);
    }
  }

  lemma NoTransitions()
    ensures Transitions([]) == []
  {
  }

  /** A freshness pass marks a state it finds expired, and leaves it alone otherwise. */
  lemma CheckMarks(rules: seq<Rule<StateType>>, name: string, s: State, now: int)
    requires !s.ignore
    ensures var s' := StateStep(rules, name, Some(s), Check(now)).0;
            && s'.Some? && !s'.value.ignore && s'.value.typ == s.typ
            && (if s.expiry <= now then s'.value.stale && s'.value.status == s.typ.status else s' == Some(s))
  {
  }

  lemma ExpiredLater(expiry: int, ops: seq<StateOp>)
    requires ops != [] && forall i | 0 <= i < |ops| :: ops[i].Check?
    ensures (exists i | 0 <= i < |ops| :: expiry <= ops[i].now)
            <==> (exists i | 0 <= i < |Front(ops)| :: expiry <= Front(ops)[i].now) || expiry <= Last(ops).now
  {
    assert ops[|ops| - 1] == Last(ops);
    if i :| 0 <= i < |ops| && expiry <= ops[i].now {
      if i < |ops| - 1 {
        assert Front(ops)[i] == ops[i];
      }
    }
  }

  // ---------------------------------------------------------------- FORGET

  /** After a non-ignoring FORGET the past is gone: everything that follows acts on an unknown name. */
  lemma StateForgotten(rules: seq<Rule<StateType>>, name: string, s: Option<State>, before: seq<StateOp>,
                       after: seq<StateOp>)
    ensures var (_, out1) := StateRun(rules, name, s, before);
            var (s2, out2) := StateRun(rules, name, None, after);
            StateRun(rules, name, s, before + [Drop(false)] + after) == (s2, out1 + out2)
  {
    RunCut(StateMachine(rules, name), s, before, Drop(false), None, after);
  }

  /** An ignored entry neither changes nor broadcasts until a non-ignoring FORGET removes it. */
  lemma StateIgnored(rules: seq<Rule<StateType>>, name: string, s: State, ops: seq<StateOp>)
    requires s.ignore
    requires forall i | 0 <= i < |ops| :: ops[i] != Drop(false)
    ensures StateRun(rules, name, Some(s), ops) == (Some(s), [])
  {
    RunStuck(StateMachine(rules, name), Some(s), ops);
  }

  /** An ignoring FORGET of an entry sets its flag and nothing else, and from then on the run has no news of it. */
  lemma StateMarked(rules: seq<Rule<StateType>>, name: string, s: Option<State>, before: seq<StateOp>,
                    after: seq<StateOp>)
    requires StateRun(rules, name, s, before).0.Some?
    requires forall i | 0 <= i < |after| :: after[i] != Drop(false)
    ensures var (s1, out1) := StateRun(rules, name, s, before);
            StateRun(rules, name, s, before + [Drop(true)] + after) == (Some(s1.value.(ignore := true)), out1)
  {
    var s1 := StateRun(rules, name, s, before).0;
    RunFrozen(StateMachine(rules, name), s, before, Drop(true), Some(s1.value.(ignore := true)), after);
  }
}
