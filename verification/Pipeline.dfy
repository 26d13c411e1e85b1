/**
 From the kernel to the database: what the kernel broadcasts about a state, passed on by the
 dispatcher, staged by an inserter and reconciled in that order.  The question is when the row of
 current states shows the label the kernel has.
 */
module Pipelines {
  import opened Basics
  import opened Machines
  import opened Metrics
  import opened Streams
  import opened States
  import opened Kernels
  import opened KernelTheorems
  import opened Dispatchers
  import opened Reconcile
  import Timelines

  // ---------------------------------------------------------------- staging

  /** The record an inserter stages: a state's `last_seen` becomes `occurred_at`. */
  function StagedAs(when: Broadcast -> int, b: Broadcast): Staged
    requires b.StateCast?
  {
    Staged(b.name, b.status, Some(b.summary), when(b), b.lastSeen)
  }

  function Stage(when: Broadcast -> int, out: seq<Broadcast>): seq<Staged> {
    if out == [] then []
    else Stage(when, Front(out)) + (if Last(out).StateCast? then [StagedAs(when, Last(out))] else [])
  }

  lemma {:induction false} StageConcat(when: Broadcast -> int, a: seq<Broadcast>, b: seq<Broadcast>)
    ensures Stage(when, a + b) == Stage(when, a) + Stage(when, b)
  {
    if b == [] {
      assert a + b == a;
    } else {
      StageConcat(when, a, Front(b));
      assert Front(a + b) == a + Front(b) && Last(a + b) == Last(b);
    }
  }

  // ---------------------------------------------------------------- the row of one name

  /** What a forwarded record does to the row of its name. */
  function RowNext(row: Option<StateRow>, time: int, status: Status, message: string): Option<StateRow> {
    match row
    case None => Some(StateRow(status, Some(message), time, time))
    case Some(cur) =>
      if cur.lastSeen >= time then row
      else Some(StateRow(status, Some(message), if cur.status != status then time else cur.firstSeen, time))
  }

  /** The dispatcher forwards a record of a name about which it has forwarded something iff there is a row. */
  predicate Forwards(row: Option<StateRow>, b: Broadcast) {
    b.TransitionCast? || (b.StateCast? && (row.None? || b.status != OK))
  }

  /** The same through the dispatcher, which has forwarded something about the name iff there is a row. */
  function RowStep(row: Option<StateRow>, b: Broadcast): Option<StateRow> {
    if Forwards(row, b)
    then RowNext(row, b.lastSeen, b.status, b.summary)
    else row
  }

  function RowOf(got: seq<Broadcast>): Option<StateRow> {
    if got == [] then None else RowStep(RowOf(Front(got)), Last(got))
  }

  lemma RowMore(got: seq<Broadcast>, b: Broadcast)
    ensures RowOf(got + [b]) == RowStep(RowOf(got), b)
  {
    assert Front(got + [b]) == got;
  }

  /** The rows of the table after a PDU went through dispatcher and `reconcile()`. */
  lemma StepRow(when: Broadcast -> int, seen: set<string>, tb: Tables, pdu: Broadcast, name: string)
    requires name in seen <==> name in tb.states
    ensures var (seen', more) := Dispatch(seen, pdu);
            var tb' := ProcessAll(tb, Stage(when, more));
            && (name in seen' <==> name in tb'.states)
            && Lookup(tb'.states, name) ==
               if TopicOf(pdu) == AboutState(name) then RowStep(Lookup(tb.states, name), pdu)
               else Lookup(tb.states, name)
  {
    hide Process, ProcessAll, Stage;
    var more := Dispatch(seen, pdu).1;
    if more == [] {
      NothingStaged(when, tb);
    } else {
      assert more == [more[0]];
      OneStaged(when, tb, more[0]);
      if more[0].StateCast? {
        OneRow(tb, StagedAs(when, more[0]), name);
      }
    }
  }

  lemma NothingStaged(when: Broadcast -> int, tb: Tables)
    ensures ProcessAll(tb, Stage(when, [])) == tb
  {
  }

  lemma OneStaged(when: Broadcast -> int, tb: Tables, b: Broadcast)
    ensures ProcessAll(tb, Stage(when, [b])) == if b.StateCast? then Process(tb, StagedAs(when, b)) else tb
  {
    hide Process;
    assert Front([b]) == [] && Stage(when, []) == [];
    if b.StateCast? {
      var st := StagedAs(when, b);
      assert Stage(when, [b]) == [] + [st] == [st];
      assert Front([st]) == [];
    }
  }

  lemma OneRow(tb: Tables, st: Staged, name: string)
    requires st.message.Some?
    ensures Lookup(Process(tb, st).states, name) ==
            if st.name == name then RowNext(Lookup(tb.states, name), st.occurredAt, st.status, st.message.value)
            else Lookup(tb.states, name)
  {
  }

  /** Name by name, the table after any stream is a fold over what was received about the name. */
  lemma {:induction false} RowIs(when: Broadcast -> int, pdus: seq<Broadcast>, name: string)
    ensures var (seen, out) := DispatchAll({}, pdus);
            var states := ProcessAll(Timelines.EMPTY, Stage(when, out)).states;
            && (name in seen <==> name in states)
            && Lookup(states, name) == RowOf(About(pdus, AboutState(name)))
  {
    hide Dispatch, Process, RowStep;
    if pdus == [] {
    } else {
      var before, pdu := Front(pdus), Last(pdus);
      RowIs(when, before, name);
      var (seen, out) := DispatchAll({}, before);
      var more := Dispatch(seen, pdu).1;
      StageConcat(when, out, more);
      ProcessAllConcat(Timelines.EMPTY, Stage(when, out), Stage(when, more));
      StepRow(when, seen, ProcessAll(Timelines.EMPTY, Stage(when, out)), pdu, name);
      FrontLast(pdus);
      AboutMore(before, [pdu], TopicOf(pdu), AboutState(name));
      RowMore(About(before, AboutState(name)), pdu);
    }
  }

  /** There is a row as soon as something was received. */
  lemma {:induction false} RowExists(got: seq<Broadcast>)
    requires forall b | b in got :: b.StateCast? || b.TransitionCast?
    ensures RowOf(got).Some? <==> got != []
  {
    if got == [] {
    } else {
      RowExists(Front(got));
      assert Last(got) in got;
    }
  }

  // ---------------------------------------------------------------- a kernel run

  /** The last update a state accepted: its label, and whether it repeated an OK, which the dispatcher skips. */
  datatype Word = Silent | Said(says: Status, repeated: bool)

  function WordNext(rules: seq<Rule<StateType>>, name: string, s: Option<State>, word: Word, op: StateOp): Word {
    if op.Update? && FindState(rules, name, s, op.now).Some?
    then
      var found := FindState(rules, name, s, op.now).value;
      Said(StatStr(op.code), op.code == 0 && !found.stale && found.status == 0)
    else word
  }

  function LastWord(rules: seq<Rule<StateType>>, name: string, s: Option<State>, ops: seq<StateOp>): Word {
    if ops == [] then Silent
    else WordNext(rules, name, StateRun(rules, name, s, Front(ops)).0, LastWord(rules, name, s, Front(ops)), Last(ops))
  }

  /** A name not heard of, or a configured state before its first update. */
  predicate Untouched(s: Option<State>) {
    s.Some? ==> s.value.lastSeen == 0 && !s.value.stale && s.value.status == PENDING && !s.value.ignore
  }

  /** Updates with usable, strictly increasing timestamps, freshness passes, and no FORGET. */
  ghost predicate Rising(ops: seq<StateOp>) {
    && (forall i | 0 <= i < |ops| :: !ops[i].Drop? && (ops[i].Update? ==> InRange(ops[i].ts)))
    && (forall i, j | 0 <= i < j < |ops| && ops[i].Update? && ops[j].Update? :: ops[i].ts < ops[j].ts)
  }

  /** How the row of a name follows its state. */
  ghost predicate Follows(s: Option<State>, row: Option<StateRow>, word: Word) {
    if s.None? then row.None? && word.Silent?
    else
      var v, mark := s.value, StatStr(s.value.typ.status);
      && !v.ignore && (v.stale ==> v.status == v.typ.status)
      && match word
         case Silent =>
           && v.lastSeen == 0
           && if v.stale then row.Some? && row.value.lastSeen == 0 && row.value.status == mark
              else row.None? && v.status == PENDING
         case Said(says, repeated) =>
           && v.lastSeen > 0 && row.Some? && (repeated ==> says == OK)
           && if v.stale then row.value.lastSeen == v.lastSeen && row.value.status == (if repeated then mark else says)
              else
                && StatStr(v.status) == says == row.value.status
                && if repeated then row.value.lastSeen < v.lastSeen else row.value.lastSeen == v.lastSeen
  }

  lemma FollowsUpdate(name: string, found: State, row: Option<StateRow>, word: Word, ts: u32, code: u8, msg: string)
    requires Follows(Some(found), row, word) && InRange(ts) && found.lastSeen < ts
    ensures var (s, out) := StateUpdate(name, found, ts, code, msg);
            Follows(Some(s), RowOfAll(row, out), Said(StatStr(code), code == 0 && !found.stale && found.status == 0))
  {
    hide RowOfAll, Report;
    var s := StateUpdate(name, found, ts, code, msg).0;
    RowOfReport(row, name, s, found.stale || found.status != code);
  }

  lemma FollowsCheck(name: string, v: State, row: Option<StateRow>, word: Word, now: int)
    requires Follows(Some(v), row, word)
    ensures var (s, out) := StateCheck(name, v, now); Follows(Some(s), RowOfAll(row, out), word)
  {
    hide RowOfAll, Report;
    NothingOut(row);
    if v.expiry <= now {
      MarkFollows(name, v, row, word, now);
    }
  }

  lemma MarkFollows(name: string, v: State, row: Option<StateRow>, word: Word, now: int)
    requires Follows(Some(v), row, word) && v.expiry <= now
    ensures var (s, out) := StateCheck(name, v, now); Follows(Some(s), RowOfAll(row, out), word)
  {
    hide RowOfAll, Report, StatStr;
    var s := StateCheck(name, v, now).0;
    RowOfReport(row, name, s, !v.stale || v.status != v.typ.status);
    if v.stale {
      assert RowOfAll(row, Report(name, s, false)) == row;
    } else {
      var marked := RowStep(row, CastTransition(name, s));
      assert marked.Some? && marked.value.lastSeen >= s.lastSeen;
      assert RowOfAll(row, Report(name, s, true)) == marked;
    }
  }

  function RowOfAll(row: Option<StateRow>, out: seq<Broadcast>): Option<StateRow> {
    if out == [] then row else RowStep(RowOfAll(row, Front(out)), Last(out))
  }

  lemma {:induction false} RowOfConcat(got: seq<Broadcast>, out: seq<Broadcast>)
    ensures RowOf(got + out) == RowOfAll(RowOf(got), out)
  {
    hide RowStep;
    if out == [] {
      assert got + out == got;
    } else {
      RowOfConcat(got, Front(out));
      assert Front(got + out) == got + Front(out) && Last(got + out) == Last(out);
    }
  }

  lemma RowOfReport(row: Option<StateRow>, name: string, s: State, transition: bool)
    ensures RowOfAll(row, Report(name, s, transition)) ==
            RowStep(if transition then RowStep(row, CastTransition(name, s)) else row, CastState(name, s))
  {
    hide RowStep;
    var out := Report(name, s, transition);
    if transition {
      assert out == [CastTransition(name, s), CastState(name, s)];
      assert Front(out) == [CastTransition(name, s)] && Front([CastTransition(name, s)]) == [];
      assert RowOfAll(row, [CastTransition(name, s)]) == RowStep(row, CastTransition(name, s));
    } else {
      assert out == [CastState(name, s)] && Front(out) == [];
    }
  }

  lemma FollowsStep(rules: seq<Rule<StateType>>, name: string, s: Option<State>, row: Option<StateRow>, word: Word,
                    op: StateOp)
    requires Follows(s, row, word) && !op.Drop?
    requires op.Update? ==> InRange(op.ts) && (s.Some? ==> s.value.lastSeen < op.ts)
    ensures var (s', out) := StateStep(rules, name, s, op);
            Follows(s', RowOfAll(row, out), WordNext(rules, name, s, word, op))
  {
    hide Follows, StateUpdate, StateCheck, RowOfAll;
    match op
    case Update(ts, code, msg, now) =>
      var found := FindState(rules, name, s, now);
      FollowsFound(rules, name, s, row, word, now);
      if found.Some? {
        FollowsUpdate(name, found.value, row, word, ts, code, msg);
      } else {
        NothingOut(row);
      }
    case Check(now) =>
      if s.Some? {
        FollowsCheck(name, s.value, row, word, now);
      } else {
        NothingOut(row);
      }
  }

  lemma NothingOut(row: Option<StateRow>)
    ensures RowOfAll(row, []) == row
  {
  }

  /** A state made for an unknown name is as untouched as the name was. */
  lemma FollowsFound(rules: seq<Rule<StateType>>, name: string, s: Option<State>, row: Option<StateRow>, word: Word,
                     now: int)
    requires Follows(s, row, word)
    ensures var found := FindState(rules, name, s, now);
            Follows(found, row, word) && (s.None? && found.Some? ==> found.value.lastSeen == 0)
  {
  }

  /** A state was last seen at its last update, if it had one. */
  ghost predicate SeenIn(s: Option<State>, ops: seq<StateOp>) {
    s.Some? && s.value.lastSeen != 0 ==> exists i :: 0 <= i < |ops| && ops[i].Update? && ops[i].ts == s.value.lastSeen
  }

  lemma SeenStep(rules: seq<Rule<StateType>>, name: string, s: Option<State>, before: seq<StateOp>, op: StateOp)
    requires SeenIn(s, before) && !op.Drop? && (op.Update? ==> InRange(op.ts))
    ensures SeenIn(StateStep(rules, name, s, op).0, before + [op])
  {
    var s', ops := StateStep(rules, name, s, op).0, before + [op];
    if s'.Some? && s'.value.lastSeen != 0 {
      if s.Some? && s'.value.lastSeen == s.value.lastSeen {
        var i :| 0 <= i < |before| && before[i].Update? && before[i].ts == s.value.lastSeen;
        assert ops[i] == before[i];
      } else {
        assert ops[|before|] == op;
      }
    }
  }

  lemma {:induction false} FollowsRun(rules: seq<Rule<StateType>>, name: string, s: Option<State>, ops: seq<StateOp>)
    requires Untouched(s) && Rising(ops)
    ensures var (s', out) := StateRun(rules, name, s, ops);
            Follows(s', RowOf(out), LastWord(rules, name, s, ops)) && SeenIn(s', ops)
  {
    hide Follows, StateStep, WordNext, RowStep, SeenIn;
    if ops == [] {
      StartFollows(s);
    } else {
      var before, op := Front(ops), Last(ops);
      RisingFront(ops);
      FollowsRun(rules, name, s, before);
      var (s1, out1) := StateRun(rules, name, s, before);
      var out2 := StateStep(rules, name, s1, op).1;
      SeenIsEarlier(s1, ops);
      FollowsStep(rules, name, s1, RowOf(out1), LastWord(rules, name, s, before), op);
      RowOfConcat(out1, out2);
      SeenStep(rules, name, s1, before, op);
      FrontLast(ops);
    }
  }

  lemma StartFollows(s: Option<State>)
    requires Untouched(s)
    ensures Follows(s, RowOf([]), Silent) && SeenIn(s, [])
  {
  }

  lemma RisingFront(ops: seq<StateOp>)
    requires Rising(ops) && ops != []
    ensures Rising(Front(ops)) && !Last(ops).Drop? && (Last(ops).Update? ==> InRange(Last(ops).ts))
  {
    assert Last(ops) == ops[|ops| - 1];
  }

  lemma SeenIsEarlier(s: Option<State>, ops: seq<StateOp>)
    requires Rising(ops) && ops != [] && SeenIn(s, Front(ops))
    ensures Last(ops).Update? && s.Some? ==> s.value.lastSeen < Last(ops).ts
  {
    assert Last(ops) == ops[|ops| - 1];
    if Last(ops).Update? && s.Some? && s.value.lastSeen != 0 {
      var i :| 0 <= i < |ops| - 1 && Front(ops)[i].Update? && Front(ops)[i].ts == s.value.lastSeen;
      assert ops[i] == Front(ops)[i];
    }
  }

  /**
   When the database shows the kernel's label.  In a run with rising timestamps the row of a state has
   the label of its last update, or of the staleness type where the state went stale before any update
   or after an OK that was skipped; a staleness mark otherwise carries a time the row already has and is
   not recorded.  So row and kernel agree unless the state is stale, its last update was forwarded, and
   the two labels differ.
   */
  lemma RowHasLabelIff(cfg: Config, ins: seq<Stamped>, k: Db, k': Db, name: string, when: Broadcast -> int)
    requires Ran(cfg, ins, k, k') && k.log == [] && Untouched(Lookup(k.states, name))
    requires Rising(StateHistory(cfg, k.timers, ins)(name))
    ensures var s := Lookup(k'.states, name);
            var row := Lookup(ProcessAll(Timelines.EMPTY, Stage(when, DispatchAll({}, k'.log).1)).states, name);
            var word := LastWord(cfg.stateRules, name, Lookup(k.states, name), StateHistory(cfg, k.timers, ins)(name));
            && (row.Some? <==> About(k'.log, AboutState(name)) != [])
            && (row.Some? ==>
                  && s.Some?
                  && (row.value.status == StatStr(s.value.status) <==>
                      !(s.value.stale && word.Said? && !word.repeated && word.says != StatStr(s.value.typ.status))))
  {
    hide Ran, StateRun, RowOf, LastWord, DispatchAll, ProcessAll, Stage;
    var topic, ops := AboutState(name), StateHistory(cfg, k.timers, ins)(name);
    StateStream(cfg, ins, k, k', name);
    assert About(k.log, topic) == [];
    assert Since(k, k', topic) == About(k'.log, topic);
    FollowsRun(cfg.stateRules, name, Lookup(k.states, name), ops);
    RowIs(when, k'.log, name);
    ReturnToOkIsAnnounced(cfg.stateRules, name, Lookup(k.states, name), ops);
    RowExists(About(k'.log, topic));
  }

  // ---------------------------------------------------------------- in any order

  /** The status of the first record of a name with a given time, in the order of processing. */
  function FirstAt(done: seq<Staged>, name: string, time: int): Option<Status> {
    if done == [] then None
    else if FirstAt(Front(done), name, time).Some? then FirstAt(Front(done), name, time)
    else if Last(done).name == name && Last(done).occurredAt == time then Some(Last(done).status)
    else None
  }

  lemma {:induction false} FirstAtIs(done: seq<Staged>, name: string, time: int)
    ensures FirstAt(done, name, time).None? <==> forall d | d in done && d.name == name :: d.occurredAt != time
    ensures FirstAt(done, name, time).Some? ==>
              exists d :: && d in done && d.name == name && d.occurredAt == time
                          && FirstAt(done, name, time) == Some(d.status)
  {
    if done == [] {
    } else {
      FirstAtIs(Front(done), name, time);
      FrontLast(done);
    }
  }

  /** The row a name has after any records in any order: the latest time, and the first status of that time. */
  ghost predicate FirstOfLatest(row: Option<StateRow>, done: seq<Staged>, name: string) {
    match row
    case None => forall d | d in done :: d.name != name
    case Some(r) =>
      && (forall d | d in done && d.name == name :: d.occurredAt <= r.lastSeen)
      && FirstAt(done, name, r.lastSeen) == Some(r.status)
  }

  lemma {:induction false} RowOfDone(done: seq<Staged>, name: string)
    ensures FirstOfLatest(Lookup(ProcessAll(Timelines.EMPTY, done).states, name), done, name)
  {
    hide Process, FirstOfLatest;
    if done == [] {
      assert FirstOfLatest(None, [], name) by { NoRow(name); }
    } else {
      RowOfDone(Front(done), name);
      FrontLast(done);
      RowOfOneMore(ProcessAll(Timelines.EMPTY, Front(done)), Front(done), Last(done), name);
    }
  }

  lemma NoRow(name: string)
    ensures FirstOfLatest(None, [], name)
  {
  }

  lemma RowOfOneMore(tb: Tables, before: seq<Staged>, st: Staged, name: string)
    requires FirstOfLatest(Lookup(tb.states, name), before, name)
    ensures FirstOfLatest(Lookup(Process(tb, st).states, name), before + [st], name)
  {
    hide HistoryNext, CaseOf;
    var row, row' := Lookup(tb.states, name), Lookup(Process(tb, st).states, name);
    var done := before + [st];
    assert Front(done) == before && Last(done) == st;
    if row'.Some? {
      FirstAtIs(before, name, row'.value.lastSeen);
    }
  }

  function Forwarded(b: Broadcast): Broadcast
    requires b.TransitionCast? || b.StateCast?
  {
    StateCast(b.name, b.lastSeen, b.stale, b.status, b.summary)
  }

  /** What is forwarded of the records about one name. */
  function Sent(got: seq<Broadcast>): seq<Broadcast> {
    if got == [] then []
    else Sent(Front(got)) + (if Forwards(RowOf(Front(got)), Last(got)) then [Forwarded(Last(got))] else [])
  }

  lemma {:induction false} SentIs(pdus: seq<Broadcast>, name: string)
    ensures About(DispatchAll({}, pdus).1, AboutState(name)) == Sent(About(pdus, AboutState(name)))
  {
    hide Dispatch, RowOf, Forwards;
    if pdus == [] {
    } else {
      var before, pdu, topic := Front(pdus), Last(pdus), AboutState(name);
      SentIs(before, name);
      RowIs(_ => 0, before, name);
      FrontLast(pdus);
      var got := About(before, topic);
      var (seen, out) := DispatchAll({}, before);
      var more := Dispatch(seen, pdu).1;
      AboutConcat(out, more, topic);
      DispatchedAbout(seen, pdu, name, RowOf(got));
      AboutMore(before, [pdu], TopicOf(pdu), topic);
      if TopicOf(pdu) == topic {
        assert Front(got + [pdu]) == got;
      } else {
        assert Sent(got) + [] == Sent(got);
      }
    }
  }

  lemma DispatchedAbout(seen: set<string>, pdu: Broadcast, name: string, row: Option<StateRow>)
    requires name in seen <==> row.Some?
    ensures About(Dispatch(seen, pdu).1, AboutState(name)) ==
            if TopicOf(pdu) == AboutState(name) && Forwards(row, pdu) then [Forwarded(pdu)] else []
  {
    hide About;
    AboutAll([], AboutKeys, AboutState(name));
    var more := Dispatch(seen, pdu).1;
    if more != [] {
      AboutAll([more[0]], TopicOf(more[0]), AboutState(name));
    }
  }

  lemma {:induction false} StageHas(when: Broadcast -> int, out: seq<Broadcast>, st: Staged)
    ensures st in Stage(when, out) <==> exists b :: b in out && b.StateCast? && StagedAs(when, b) == st
  {
    if out == [] {
    } else {
      StageHas(when, Front(out), st);
      FrontLast(out);
      var before, b := Stage(when, Front(out)), Last(out);
      assert st in Stage(when, out) <==> st in before || (b.StateCast? && StagedAs(when, b) == st);
    }
  }

  // ---------------------------------------------------------------- the records of the latest time

  /** A staleness mark that came at the time of an update which was forwarded too. */
  predicate Tied(s: Option<State>, word: Word) {
    s.Some? && s.value.stale && word.Said? && !word.repeated
  }

  /** No record sent is later than the row, and those of its time have its status, or are a tied mark. */
  ghost predicate Topped(s: Option<State>, row: Option<StateRow>, word: Word, sent: seq<Broadcast>) {
    forall b | b in sent ::
      && b.StateCast? && row.Some? && b.lastSeen <= row.value.lastSeen
      && (b.lastSeen == row.value.lastSeen ==>
            b.status == row.value.status || (Tied(s, word) && b.status == StatStr(s.value.typ.status)))
  }

  /** What `Sent` adds for the broadcasts of one step. */
  function SentAll(row: Option<StateRow>, out: seq<Broadcast>): seq<Broadcast> {
    if out == [] then []
    else
      var before := RowOfAll(row, Front(out));
      SentAll(row, Front(out)) + (if Forwards(before, Last(out)) then [Forwarded(Last(out))] else [])
  }

  lemma {:induction false} SentConcat(got: seq<Broadcast>, out: seq<Broadcast>)
    ensures Sent(got + out) == Sent(got) + SentAll(RowOf(got), out)
  {
    hide RowStep, Forwards;
    if out == [] {
      assert got + out == got;
    } else {
      SentConcat(got, Front(out));
      RowOfConcat(got, Front(out));
      assert Front(got + out) == got + Front(out) && Last(got + out) == Last(out);
    }
  }

  lemma SentReport(row: Option<StateRow>, name: string, s: State, transition: bool)
    ensures var cast := CastState(name, s);
            var marked := if transition then RowStep(row, CastTransition(name, s)) else row;
            SentAll(row, Report(name, s, transition)) ==
            (if transition then [cast] else []) + (if Forwards(marked, cast) then [cast] else [])
  {
    hide RowStep;
    var out, cast, first := Report(name, s, transition), CastState(name, s), CastTransition(name, s);
    if transition {
      assert out == [first, cast] && Front(out) == [first] && Front([first]) == [];
      assert RowOfAll(row, [first]) == RowStep(row, first);
      assert SentAll(row, [first]) == [Forwarded(first)] == [cast];
    } else {
      assert out == [cast] && Front(out) == [];
      assert SentAll(row, out) == [] + (if Forwards(row, cast) then [Forwarded(cast)] else []);
    }
  }

  lemma ToppedUpdate(name: string, found: State, row: Option<StateRow>, word: Word, sent: seq<Broadcast>,
                     ts: u32, code: u8, msg: string)
    requires Follows(Some(found), row, word) && Topped(Some(found), row, word, sent)
    requires InRange(ts) && found.lastSeen < ts
    ensures var (s, out) := StateUpdate(name, found, ts, code, msg);
            Topped(Some(s), RowOfAll(row, out), Said(StatStr(code), code == 0 && !found.stale && found.status == 0),
                   sent + SentAll(row, out))
  {
    hide RowOfAll, SentAll, Report;
    var s := StateUpdate(name, found, ts, code, msg).0;
    RowOfReport(row, name, s, found.stale || found.status != code);
    SentReport(row, name, s, found.stale || found.status != code);
  }

  lemma ToppedCheck(name: string, v: State, row: Option<StateRow>, word: Word, sent: seq<Broadcast>, now: int)
    requires Follows(Some(v), row, word) && Topped(Some(v), row, word, sent)
    ensures var (s, out) := StateCheck(name, v, now);
            Topped(Some(s), RowOfAll(row, out), word, sent + SentAll(row, out))
  {
    hide RowOfAll, SentAll, Report;
    NothingOut(row);
    NothingSent(row);
    assert sent + [] == sent;
    if v.expiry <= now {
      ToppedMark(name, v, row, word, sent, now);
    }
  }

  lemma NothingSent(row: Option<StateRow>)
    ensures SentAll(row, []) == []
  {
  }

  lemma ToppedMark(name: string, v: State, row: Option<StateRow>, word: Word, sent: seq<Broadcast>, now: int)
    requires Follows(Some(v), row, word) && Topped(Some(v), row, word, sent) && v.expiry <= now
    ensures var (s, out) := StateCheck(name, v, now);
            Topped(Some(s), RowOfAll(row, out), word, sent + SentAll(row, out))
  {
    hide RowOfAll, SentAll, Report, StatStr;
    var s := StateCheck(name, v, now).0;
    RowOfReport(row, name, s, !v.stale || v.status != v.typ.status);
    SentReport(row, name, s, !v.stale || v.status != v.typ.status);
    if !v.stale {
      var marked := RowStep(row, CastTransition(name, s));
      assert marked.Some? && marked.value.lastSeen >= s.lastSeen;
    }
  }

  lemma ToppedStep(rules: seq<Rule<StateType>>, name: string, s: Option<State>, row: Option<StateRow>, word: Word,
                   sent: seq<Broadcast>, op: StateOp)
    requires Follows(s, row, word) && Topped(s, row, word, sent) && !op.Drop?
    requires op.Update? ==> InRange(op.ts) && (s.Some? ==> s.value.lastSeen < op.ts)
    ensures var (s', out) := StateStep(rules, name, s, op);
            Topped(s', RowOfAll(row, out), WordNext(rules, name, s, word, op), sent + SentAll(row, out))
  {
    hide Follows, StateUpdate, StateCheck, RowOfAll, SentAll;
    NothingOut(row);
    NothingSent(row);
    assert sent + [] == sent;
    match op
    case Update(ts, code, msg, now) =>
      var found := FindState(rules, name, s, now);
      FollowsFound(rules, name, s, row, word, now);
      if found.Some? {
        UnknownSentNothing(s, row, word, sent);
        ToppedUpdate(name, found.value, row, word, sent, ts, code, msg);
      }
    case Check(now) =>
      if s.Some? {
        ToppedCheck(name, s.value, row, word, sent, now);
      }
  }

  lemma UnknownSentNothing(s: Option<State>, row: Option<StateRow>, word: Word, sent: seq<Broadcast>)
    requires Follows(s, row, word) && Topped(s, row, word, sent)
    ensures s.None? ==> sent == []
  {
    assert sent != [] ==> sent[0] in sent;
  }

  lemma {:induction false} ToppedRun(rules: seq<Rule<StateType>>, name: string, s: Option<State>, ops: seq<StateOp>)
    requires Untouched(s) && Rising(ops)
    ensures var (s', out) := StateRun(rules, name, s, ops);
            Topped(s', RowOf(out), LastWord(rules, name, s, ops), Sent(out))
  {
    hide Follows, Topped, StateStep, WordNext, RowStep, SeenIn, Forwards, Sent;
    if ops == [] {
      NothingTopped(s);
    } else {
      var before, op := Front(ops), Last(ops);
      RisingFront(ops);
      ToppedRun(rules, name, s, before);
      FollowsRun(rules, name, s, before);
      var (s1, out1) := StateRun(rules, name, s, before);
      var out2 := StateStep(rules, name, s1, op).1;
      SeenIsEarlier(s1, ops);
      ToppedStep(rules, name, s1, RowOf(out1), LastWord(rules, name, s, before), Sent(out1), op);
      RowOfConcat(out1, out2);
      SentConcat(out1, out2);
    }
  }

  lemma NothingTopped(s: Option<State>)
    ensures Topped(s, RowOf([]), Silent, Sent([]))
  {
  }

  // ---------------------------------------------------------------- the row, whatever the order

  /** `done` holds, of the name, exactly the records that were staged; how often and in what order is open. */
  ghost predicate SameRecords(done: seq<Staged>, staged: seq<Staged>, name: string) {
    forall st: Staged | st.name == name :: st in done <==> st in staged
  }

  /** Two lists with the same records of a name give rows of the same time. */
  lemma SameLatest(row: Option<StateRow>, done: seq<Staged>, row': Option<StateRow>, done': seq<Staged>, name: string)
    requires FirstOfLatest(row, done, name) && FirstOfLatest(row', done', name) && SameRecords(done, done', name)
    ensures row.Some? <==> row'.Some?
    ensures row.Some? ==> row.value.lastSeen == row'.value.lastSeen
  {
    if row.Some? {
      FirstAtIs(done, name, row.value.lastSeen);
      var d :| d in done && d.name == name && d.occurredAt == row.value.lastSeen;
      assert d in done';
    }
    if row'.Some? {
      FirstAtIs(done', name, row'.value.lastSeen);
      var d :| d in done' && d.name == name && d.occurredAt == row'.value.lastSeen;
      assert d in done;
    }
  }

  /** The status of a row is that of a record sent with the row's time. */
  lemma StatusWasSent(row: StateRow, done: seq<Staged>, when: Broadcast -> int, out: seq<Broadcast>, name: string)
    returns (b: Broadcast)
    requires FirstOfLatest(Some(row), done, name) && SameRecords(done, Stage(when, out), name)
    ensures b in About(out, AboutState(name)) && b.StateCast? && b.lastSeen == row.lastSeen && b.status == row.status
  {
    hide Stage;
    FirstAtIs(done, name, row.lastSeen);
    var d :| d in done && d.name == name && d.occurredAt == row.lastSeen && Some(row.status) == Some(d.status);
    StageHas(when, out, d);
    b :| b in out && b.StateCast? && StagedAs(when, b) == d;
    AboutHas(out, b);
  }

  lemma {:induction false} AboutHas(out: seq<Broadcast>, b: Broadcast)
    requires b in out
    ensures b in About(out, TopicOf(b))
  {
    FrontLast(out);
    if b in Front(out) {
      AboutHas(Front(out), b);
    }
  }

  /** The row of the name after any such records, in terms of the state alone. */
  ghost predicate Shows(row: Option<StateRow>, s: Option<State>, word: Word, done: seq<Staged>, name: string) {
    row.Some? ==>
      && s.Some?
      && var mark := StatStr(s.value.typ.status);
         row.value.status == StatStr(s.value.status) <==>
           !(Tied(s, word) && word.says != mark) || FirstAt(done, name, s.value.lastSeen) == Some(mark)
  }

  lemma AnyOrderShows(s: Option<State>, row: Option<StateRow>, word: Word, sent: seq<Broadcast>,
                      row': Option<StateRow>, done: seq<Staged>, name: string, b: Broadcast)
    requires Follows(s, row, word) && Topped(s, row, word, sent)
    requires row.Some? && row'.Some? && row.value.lastSeen == row'.value.lastSeen && FirstOfLatest(row', done, name)
    requires b in sent && b.lastSeen == row'.value.lastSeen && b.status == row'.value.status
    ensures Shows(row', s, word, done, name)
  {
    hide StatStr;
  }

  /**
   When the database shows the kernel's label, in whatever order the records were staged and processed:
   always, except where a state went stale after an update that was forwarded and the two labels differ.
   There it does exactly if the staleness mark was processed before the update of the same time.
   */
  lemma RowInAnyOrder(cfg: Config, ins: seq<Stamped>, k: Db, k': Db, name: string, when: Broadcast -> int,
                      done: seq<Staged>)
    requires Ran(cfg, ins, k, k') && k.log == [] && Untouched(Lookup(k.states, name))
    requires Rising(StateHistory(cfg, k.timers, ins)(name))
    requires SameRecords(done, Stage(when, DispatchAll({}, k'.log).1), name)
    ensures var row := Lookup(ProcessAll(Timelines.EMPTY, done).states, name);
            var word := LastWord(cfg.stateRules, name, Lookup(k.states, name), StateHistory(cfg, k.timers, ins)(name));
            && (row.Some? <==> About(k'.log, AboutState(name)) != [])
            && Shows(row, Lookup(k'.states, name), word, done, name)
  {
    hide Ran, StateRun, RowOf, LastWord, DispatchAll, ProcessAll, Stage, Sent, Topped, Follows, FirstOfLatest, Shows;
    hide SameRecords;
    var topic, ops, s := AboutState(name), StateHistory(cfg, k.timers, ins)(name), Lookup(k.states, name);
    StateStream(cfg, ins, k, k', name);
    assert Since(k, k', topic) == About(k'.log, topic) by { assert About(k.log, topic) == []; }
    var out := DispatchAll({}, k'.log).1;
    FollowsRun(cfg.stateRules, name, s, ops);
    ToppedRun(cfg.stateRules, name, s, ops);
    RowIs(when, k'.log, name);
    SentIs(k'.log, name);
    ReturnToOkIsAnnounced(cfg.stateRules, name, s, ops);
    RowExists(About(k'.log, topic));
    var row, row' := RowOf(About(k'.log, topic)), Lookup(ProcessAll(Timelines.EMPTY, done).states, name);
    RowOfDone(done, name);
    RowOfDone(Stage(when, out), name);
    SameLatest(row', done, row, Stage(when, out), name);
    if row'.Some? {
      var b := StatusWasSent(row'.value, done, when, out, name);
      AnyOrderShows(Lookup(k'.states, name), row, LastWord(cfg.stateRules, name, s, ops), About(out, topic),
                    row', done, name, b);
    } else {
      NoRowShows(Lookup(k'.states, name), LastWord(cfg.stateRules, name, s, ops), done, name);
    }
  }

  lemma NoRowShows(s: Option<State>, word: Word, done: seq<Staged>, name: string)
    ensures Shows(None, s, word, done, name)
  {
  }

  /** The same for the tables after any passes over any arrivals of those records, once nothing is left staged. */
  lemma RowAfterPasses(cfg: Config, ins: seq<Stamped>, k: Db, k': Db, name: string, when: Broadcast -> int,
                       ops: seq<Timelines.StagingOp>)
    requires Ran(cfg, ins, k, k') && k.log == [] && Untouched(Lookup(k.states, name))
    requires Rising(StateHistory(cfg, k.timers, ins)(name))
    requires Timelines.Legal(ops) && Timelines.StagingAfter(ops) == multiset{}
    requires SameRecords(Timelines.Arrived(ops), Stage(when, DispatchAll({}, k'.log).1), name)
    ensures var done := Timelines.Done(ops);
            var row := Lookup(ProcessAll(Timelines.EMPTY, done).states, name);
            var word := LastWord(cfg.stateRules, name, Lookup(k.states, name), StateHistory(cfg, k.timers, ins)(name));
            && (row.Some? <==> About(k'.log, AboutState(name)) != [])
            && Shows(row, Lookup(k'.states, name), word, done, name)
  {
    hide Ran, LastWord, DispatchAll, ProcessAll, Stage, Shows;
    Timelines.AllAccountedFor(ops);
    RowInAnyOrder(cfg, ins, k, k', name, when, Timelines.Done(ops));
  }
}
