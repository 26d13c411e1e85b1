/**
 The Postgres side of the state pipeline: `reconcile()` folds staged records into a table of
 current states and a history timeline.
 */
module Reconcile {
  import opened Basics

  datatype Staged = Staged(name: string, status: Status, message: Option<string>, insertedAt: int, occurredAt: int)

  /** A row of `states`; the table is keyed by name. */
  datatype StateRow = StateRow(status: Status, message: Option<string>, firstSeen: int, lastSeen: int)

  /** A row of `history`. */
  datatype Row = Row(name: string, status: Status, message: Option<string>,
                     startedAt: int, tentativeEndedAt: int, endedAt: Option<int>)

  // ---------------------------------------------------------------- constraints of the schema

  /** CHECK (last_seen >= first_seen); UNIQUE (name) holds because the table is a map. */
  predicate StateRowOk(row: StateRow) { row.lastSeen >= row.firstSeen }

  ghost predicate StatesOk(states: map<string, StateRow>) {
    forall n | n in states :: StateRowOk(states[n])
  }

  /** The two CHECKs of `history`. */
  predicate RowOk(r: Row) {
    r.tentativeEndedAt >= r.startedAt && (r.endedAt.Some? ==> r.endedAt.value >= r.startedAt)
  }

  /** UNIQUE (name, started_at): `row` may be added to `rows`. */
  ghost predicate Unclaimed(rows: set<Row>, row: Row) {
    forall r | r in rows && r.name == row.name :: r.startedAt != row.startedAt
  }

  /** An earlier row of the same name is over, as far as is known, when a later one starts. */
  predicate Precedes(r: Row, later: Row) {
    r.tentativeEndedAt <= later.startedAt && (r.endedAt.Some? ==> r.endedAt.value <= later.startedAt)
  }

  /** CHECKs and UNIQUE hold, and the observed intervals of one name do not overlap. */
  ghost predicate HistoryOk(rows: set<Row>) {
    && (forall r | r in rows :: RowOk(r))
    && (forall r, q | r in rows && q in rows && r.name == q.name && r != q :: r.startedAt != q.startedAt)
    && (forall r, q | r in rows && q in rows && r.name == q.name && r.startedAt < q.startedAt :: Precedes(r, q))
  }

  // ---------------------------------------------------------------- one staged record

  function StatesNext(states: map<string, StateRow>, st: Staged): map<string, StateRow> {
    if st.name !in states then
      states[st.name := StateRow(st.status, st.message, st.occurredAt, st.occurredAt)]
    else
      var cur := states[st.name];
      if cur.lastSeen >= st.occurredAt then states
      else if cur.status != st.status then
        states[st.name := StateRow(st.status, st.message, st.occurredAt, st.occurredAt)]
      else
        states[st.name := cur.(lastSeen := st.occurredAt, message := st.message)]
  }

  /** The row the history query selects: the latest of that name that started by `t`. */
  ghost predicate IsPrev(rows: set<Row>, name: string, t: int, prev: Option<Row>) {
    match prev
    case None => forall r | r in rows && r.name == name :: r.startedAt > t
    case Some(p) =>
      && p in rows && p.name == name && p.startedAt <= t
      && forall r | r in rows && r.name == name && r.startedAt <= t :: r.startedAt <= p.startedAt
  }

  datatype Case = NoHistory | Continuation | Transition | Anomaly

  function CaseOf(prev: Option<Row>, st: Staged): Case {
    if prev.None? then NoHistory
    else if prev.value.endedAt.Some? || prev.value.tentativeEndedAt >= st.occurredAt then Anomaly
    else if prev.value.status == st.status then Continuation
    else Transition
  }

  function Opened(st: Staged): Row {
    Row(st.name, st.status, st.message, st.occurredAt, st.occurredAt, None)
  }

  function HistoryNext(rows: set<Row>, prev: Option<Row>, st: Staged): set<Row> {
    match CaseOf(prev, st)
    case NoHistory => rows + {Opened(st)}
    case Continuation => rows - {prev.value} + {prev.value.(tentativeEndedAt := st.occurredAt)}
    case Transition =>
      rows - {prev.value}
      + {prev.value.(endedAt := Some(st.occurredAt), tentativeEndedAt := st.occurredAt)} + {Opened(st)}
    case Anomaly => rows
  }

  /**
   A row replaced by one that starts at the same time but lasts longer, up to a time at which no row has
   started since.
   */
  lemma StretchKeepsOk(rows: set<Row>, p: Row, p': Row, t: int)
    requires HistoryOk(rows) && IsPrev(rows, p.name, t, Some(p))
    requires p'.name == p.name && p'.startedAt == p.startedAt && RowOk(p')
    requires p'.tentativeEndedAt <= t && (p'.endedAt.Some? ==> p'.endedAt.value <= t)
    ensures HistoryOk(rows - {p} + {p'})
  {
    var rows' := rows - {p} + {p'};
    forall r, q | r in rows' && q in rows' && r.name == q.name && r != q
      ensures r.startedAt != q.startedAt
    {
      assert r in rows || r == p';
      assert q in rows || q == p';
    }
    forall r, q | r in rows' && q in rows' && r.name == q.name && r.startedAt < q.startedAt
      ensures Precedes(r, q)
    {
      if r == p' {
        assert q in rows && q.startedAt > t;
      } else if q == p' {
        assert Precedes(r, p);
      }
    }
  }

  /** A row that starts after everything that started before it is over may be added. */
  lemma AddKeepsOk(rows: set<Row>, row: Row)
    requires HistoryOk(rows) && RowOk(row) && Unclaimed(rows, row)
    requires forall r | r in rows && r.name == row.name && r.startedAt < row.startedAt :: Precedes(r, row)
    requires forall r | r in rows && r.name == row.name && row.startedAt < r.startedAt :: Precedes(row, r)
    ensures HistoryOk(rows + {row})
  {
  }

  /**
   In whatever order records are staged, no statement of `reconcile()` violates a constraint, and
   the observed intervals of one name never overlap.
   */
  lemma HistoryNextOk(rows: set<Row>, prev: Option<Row>, st: Staged)
    requires HistoryOk(rows) && IsPrev(rows, st.name, st.occurredAt, prev)
    ensures HistoryOk(HistoryNext(rows, prev, st))
    ensures CaseOf(prev, st).NoHistory? ==> Unclaimed(rows, Opened(st))
    ensures CaseOf(prev, st).Transition? ==>
              var p := prev.value.(endedAt := Some(st.occurredAt), tentativeEndedAt := st.occurredAt);
              HistoryOk(rows - {prev.value} + {p}) && Unclaimed(rows - {prev.value} + {p}, Opened(st))
  {
    var t := st.occurredAt;
    match CaseOf(prev, st)
    case NoHistory =>
      AddKeepsOk(rows, Opened(st));
    case Continuation =>
      StretchKeepsOk(rows, prev.value, prev.value.(tentativeEndedAt := t), t);
    case Transition =>
      TransitionKeepsOk(rows, prev.value, st);
    case Anomaly =>
  }

  lemma TransitionKeepsOk(rows: set<Row>, prev: Row, st: Staged)
    requires HistoryOk(rows) && IsPrev(rows, st.name, st.occurredAt, Some(prev)) && CaseOf(Some(prev), st).Transition?
    ensures var p := prev.(endedAt := Some(st.occurredAt), tentativeEndedAt := st.occurredAt);
            && HistoryOk(rows - {prev} + {p})
            && Unclaimed(rows - {prev} + {p}, Opened(st))
            && HistoryOk(rows - {prev} + {p} + {Opened(st)})
  {
    var t := st.occurredAt;
    var p := prev.(endedAt := Some(t), tentativeEndedAt := t);
    StretchKeepsOk(rows, prev, p, t);
    var closed := rows - {prev} + {p};
    forall r | r in closed && r.name == st.name
      ensures r.startedAt < t ==> Precedes(r, Opened(st))
      ensures r.startedAt != t
    {
      if r != p {
        assert r in rows && RowOk(prev);
        if r.startedAt <= t && r.startedAt != prev.startedAt {
          assert Precedes(r, prev);
        }
      }
    }
    AddKeepsOk(closed, Opened(st));
  }

  // ---------------------------------------------------------------- the selected row

  lemma PrevExists(rows: set<Row>, name: string, t: int) returns (prev: Option<Row>)
    ensures IsPrev(rows, name, t, prev)
    decreases |rows|
  {
    if rows == {} {
      prev := None;
    } else {
      var r :| r in rows;
      var rest := rows - {r};
      prev := PrevExists(rest, name, t);
      if r.name == name && r.startedAt <= t && (prev.None? || prev.value.startedAt < r.startedAt) {
        prev := Some(r);
      }
      assert rows == rest + {r};
    }
  }

  lemma PrevUnique(rows: set<Row>, name: string, t: int, p: Option<Row>, q: Option<Row>)
    requires HistoryOk(rows) && IsPrev(rows, name, t, p) && IsPrev(rows, name, t, q)
    ensures p == q
  {
  }

  ghost function PrevOf(rows: set<Row>, name: string, t: int): (prev: Option<Row>)
    ensures IsPrev(rows, name, t, prev)
  {
    assert exists prev :: IsPrev(rows, name, t, prev) by {
      var prev := PrevExists(rows, name, t);
    }
    var prev :| IsPrev(rows, name, t, prev);
    prev
  }

  // ---------------------------------------------------------------- the loop

  /** The tables `reconcile()` maintains. */
  datatype Tables = Tables(states: map<string, StateRow>, history: set<Row>, anomalies: multiset<Staged>)

  ghost predicate TablesOk(tb: Tables) {
    StatesOk(tb.states) && HistoryOk(tb.history)
  }

  ghost function Process(tb: Tables, st: Staged): Tables {
    var prev := PrevOf(tb.history, st.name, st.occurredAt);
    Tables(StatesNext(tb.states, st), HistoryNext(tb.history, prev, st),
           if CaseOf(prev, st).Anomaly? then tb.anomalies + multiset{st} else tb.anomalies)
  }

  ghost function ProcessAll(tb: Tables, done: seq<Staged>): Tables {
    if done == [] then tb else Process(ProcessAll(tb, Front(done)), Last(done))
  }

  lemma {:induction false} ProcessAllOk(tb: Tables, done: seq<Staged>)
    requires TablesOk(tb)
    ensures TablesOk(ProcessAll(tb, done))
  {
    if done == [] {
    } else {
      ProcessAllOk(tb, Front(done));
      var mid, st := ProcessAll(tb, Front(done)), Last(done);
      HistoryNextOk(mid.history, PrevOf(mid.history, st.name, st.occurredAt), st);
    }
  }

  /** Two batches one after the other are one run of the loop. */
  lemma {:induction false} ProcessAllConcat(tb: Tables, a: seq<Staged>, b: seq<Staged>)
    ensures ProcessAll(tb, a + b) == ProcessAll(ProcessAll(tb, a), b)
  {
    hide Process;
    if b == [] {
      assert a + b == a;
    } else {
      ProcessAllConcat(tb, a, Front(b));
      assert Front(a + b) == a + Front(b) && Last(a + b) == Last(b);
    }
  }

  // ---------------------------------------------------------------- no record is dropped

  /** The row says that the record's name had its status at its time. */
  predicate Covers(r: Row, st: Staged) {
    r.name == st.name && r.status == st.status && r.startedAt <= st.occurredAt <= r.tentativeEndedAt
  }

  /** The latest row that had started by the record's time is closed, or reaches that time already. */
  ghost predicate TooLate(rows: set<Row>, st: Staged) {
    exists p :: IsPrev(rows, st.name, st.occurredAt, Some(p))
                && (p.endedAt.Some? || p.tentativeEndedAt >= st.occurredAt)
  }

  /**
   In whatever order they come, a record is either logged once as an anomaly, with the history unchanged, or it
   leaves a row of its name and status that starts or, for now, ends at its time; the first exactly when it is
   too late.
   */
  lemma FiledOrLogged(tb: Tables, st: Staged)
    requires TablesOk(tb)
    ensures var tb' := Process(tb, st);
            if TooLate(tb.history, st) then tb'.anomalies == tb.anomalies + multiset{st} && tb'.history == tb.history
            else
              && tb'.anomalies == tb.anomalies
              && exists r :: r in tb'.history && Covers(r, st)
                             && (r.startedAt == st.occurredAt || r.tentativeEndedAt == st.occurredAt)
  {
    var rows, tb' := tb.history, Process(tb, st);
    var prev := PrevOf(rows, st.name, st.occurredAt);
    assert TooLate(rows, st) <==> CaseOf(prev, st).Anomaly? by {
      if p :| IsPrev(rows, st.name, st.occurredAt, Some(p))
              && (p.endedAt.Some? || p.tentativeEndedAt >= st.occurredAt) {
        PrevUnique(rows, st.name, st.occurredAt, prev, Some(p));
      }
    }
    match CaseOf(prev, st)
    case NoHistory => assert Opened(st) in tb'.history && Covers(Opened(st), st);
    case Continuation =>
      var p := prev.value.(tentativeEndedAt := st.occurredAt);
      assert p in tb'.history && Covers(p, st);
    case Transition => assert Opened(st) in tb'.history && Covers(Opened(st), st);
    case Anomaly =>
  }

  /** A row grows at its end only. */
  predicate Grows(r: Row, r': Row) {
    && r'.name == r.name && r'.status == r.status && r'.message == r.message && r'.startedAt == r.startedAt
    && r.tentativeEndedAt <= r'.tentativeEndedAt
  }

  /** No row is lost: each is still there, or has grown. */
  lemma RowsGrow(tb: Tables, st: Staged, r: Row)
    requires r in tb.history
    ensures exists r' :: r' in Process(tb, st).history && Grows(r, r')
  {
    var rows', t := Process(tb, st).history, st.occurredAt;
    var prev := PrevOf(tb.history, st.name, t);
    if prev == Some(r) && CaseOf(prev, st).Continuation? {
      assert r.(tentativeEndedAt := t) in rows' && Grows(r, r.(tentativeEndedAt := t));
    } else if prev == Some(r) && CaseOf(prev, st).Transition? {
      var r' := r.(endedAt := Some(t), tentativeEndedAt := t);
      assert r' in rows' && Grows(r, r');
    } else {
      assert r in rows' && Grows(r, r);
    }
  }

  /** The record is in the history, or in the log of anomalies. */
  ghost predicate Kept(tb: Tables, st: Staged) {
    st in tb.anomalies || exists r :: r in tb.history && Covers(r, st)
  }

  lemma StaysKept(tb: Tables, st: Staged, d: Staged)
    requires Kept(tb, d)
    ensures Kept(Process(tb, st), d)
  {
    if d !in tb.anomalies {
      var r :| r in tb.history && Covers(r, d);
      RowsGrow(tb, st, r);
      var r' :| r' in Process(tb, st).history && Grows(r, r');
      assert Covers(r', d);
    }
  }

  /** In whatever order they come, no record is dropped: each is covered by a row or logged, and no other is logged. */
  lemma {:induction false} NothingDropped(tb: Tables, done: seq<Staged>)
    requires TablesOk(tb)
    ensures forall d | d in done || Kept(tb, d) :: Kept(ProcessAll(tb, done), d)
    ensures ProcessAll(tb, done).anomalies <= tb.anomalies + multiset(done)
  {
    hide Process, TablesOk, Kept;
    if done == [] {
    } else {
      var before, st := Front(done), Last(done);
      NothingDropped(tb, before);
      ProcessAllOk(tb, before);
      FrontLast(done);
      var mid := ProcessAll(tb, before);
      LoggedOnce(mid, st);
      forall d | d in done || Kept(tb, d) ensures Kept(ProcessAll(tb, done), d) {
        if d in before || Kept(tb, d) {
          StaysKept(mid, st, d);
        }
      }
      assert multiset(done) == multiset(before) + multiset{st};
    }
  }

  lemma LoggedOnce(tb: Tables, st: Staged)
    requires TablesOk(tb)
    ensures Kept(Process(tb, st), st) && Process(tb, st).anomalies <= tb.anomalies + multiset{st}
  {
    hide Process;
    FiledOrLogged(tb, st);
  }

  /** Every row was opened by a record of its name, status, message and start. */
  lemma {:induction false} RowsWereOpened(done: seq<Staged>, r: Row)
    requires r in ProcessAll(Tables(map[], {}, multiset{}), done).history
    ensures exists d :: d in done && d.name == r.name && d.status == r.status && d.message == r.message
                        && d.occurredAt == r.startedAt
  {
    var before, st := Front(done), Last(done);
    var rows := ProcessAll(Tables(map[], {}, multiset{}), before).history;
    FrontLast(done);
    if r == Opened(st) {
      assert st in done;
    } else {
      var was := RowBefore(rows, PrevOf(rows, st.name, st.occurredAt), st, r);
      RowsWereOpened(before, was);
      var d :| d in before && d.name == was.name && d.status == was.status && d.message == was.message
               && d.occurredAt == was.startedAt;
      assert d in done;
    }
  }

  lemma RowBefore(rows: set<Row>, prev: Option<Row>, st: Staged, r: Row) returns (was: Row)
    requires IsPrev(rows, st.name, st.occurredAt, prev)
    requires r in HistoryNext(rows, prev, st) && r != Opened(st)
    ensures was in rows && r.name == was.name && r.status == was.status && r.message == was.message
    ensures r.startedAt == was.startedAt
  {
    was := if r in rows then r else prev.value;
  }

  /** The row of a name comes from records: the latest seen gives time and message, and one of its status the start. */
  ghost predicate RowFrom(row: StateRow, done: seq<Staged>, name: string) {
    && (exists d :: d in done && d.name == name && d.occurredAt == row.lastSeen && d.status == row.status
                    && d.message == row.message)
    && (exists d :: d in done && d.name == name && d.occurredAt == row.firstSeen && d.status == row.status)
    && (forall d | d in done && d.name == name :: d.occurredAt <= row.lastSeen)
  }

  /** In whatever order the records come, the current row of a name says what a record of the latest time says. */
  lemma {:induction false} RowsAreLatest(done: seq<Staged>, name: string)
    ensures var states := ProcessAll(Tables(map[], {}, multiset{}), done).states;
            if name in states then RowFrom(states[name], done, name) else forall d | d in done :: d.name != name
  {
    hide RowFrom;
    if done == [] {
    } else {
      var before, st := Front(done), Last(done);
      RowsAreLatest(before, name);
      FrontLast(done);
      RowLatestStep(ProcessAll(Tables(map[], {}, multiset{}), before).states, before, st, name);
    }
  }

  lemma RowLatestStep(states: map<string, StateRow>, before: seq<Staged>, st: Staged, name: string)
    requires if name in states then RowFrom(states[name], before, name) else forall d | d in before :: d.name != name
    ensures var states', done := StatesNext(states, st), before + [st];
            if name in states' then RowFrom(states'[name], done, name) else forall d | d in done :: d.name != name
  {
    var states', done := StatesNext(states, st), before + [st];
    assert st in done;
    if name in states {
      var a :| a in before && a.name == name && a.occurredAt == states[name].lastSeen && a.status == states[name].status
               && a.message == states[name].message;
      var b :| b in before && b.name == name && b.occurredAt == states[name].firstSeen
               && b.status == states[name].status;
      assert a in done && b in done;
    }
  }

  // ---------------------------------------------------------------- passes

  const LIMIT := 500

  /** What the cursor of a pass returns: the earliest rows, in time order; ties may come in any order. */
  ghost predicate IsBatch(staging: multiset<Staged>, batch: seq<Staged>) {
    && multiset(batch) <= staging
    && |batch| == (if |staging| < LIMIT then |staging| else LIMIT)
    && (forall i, j | 0 <= i < j < |batch| :: batch[i].occurredAt <= batch[j].occurredAt)
    && (forall b, r | b in batch && r in staging - multiset(batch) :: b.occurredAt <= r.occurredAt)
  }

  /** What deleting each processed row from the staging table leaves: duplicates go with the row they equal. */
  ghost function Remaining(staging: multiset<Staged>, batch: seq<Staged>): multiset<Staged> {
    if batch == [] then staging else Remaining(staging, Front(batch))[Last(batch) := 0]
  }

  class Warehouse {
    var staging: multiset<Staged>
    var states: map<string, StateRow>
    var history: set<Row>
    var anomalies: multiset<Staged>

    ghost function View(): Tables
      reads this
    {
      Tables(states, history, anomalies)
    }

    constructor ()
      ensures View() == Tables(map[], {}, multiset{}) && staging == multiset{}
    {
      staging, states, history, anomalies := multiset{}, map[], {}, multiset{};
    }

    /** An inserter stages a record. */
    method Arrive(st: Staged)
      modifies `staging
      ensures staging == old(staging) + multiset{st}
    {
      staging := staging + multiset{st};
    }

    /** SELECT ... WHERE name = ... AND started_at <= ... ORDER BY started_at DESC LIMIT 1 */
    method SelectPrev(name: string, t: int) returns (prev: Option<Row>)
      ensures IsPrev(history, name, t, prev)
    {
      prev := None;
      var left := history;
      while left != {}
        invariant left <= history && IsPrev(history - left, name, t, prev)
      {
        var r :| r in left;
        left := left - {r};
        if r.name == name && r.startedAt <= t && (prev.None? || prev.value.startedAt < r.startedAt) {
          prev := Some(r);
        }
        assert history - left == (history - left - {r}) + {r};
      }
      assert history - left == history;
    }

    /** The first half of the loop body: the table of current states. */
    method UpdateStates(st: Staged)
      requires StatesOk(states)
      modifies `states
      ensures StatesOk(states) && states == StatesNext(old(states), st)
    {
      if st.name !in states {
        states := states[st.name := StateRow(st.status, st.message, st.occurredAt, st.occurredAt)];
      } else if states[st.name].lastSeen < st.occurredAt {
        var cur := states[st.name];
        if cur.status != st.status {
          states := states[st.name := cur.(status := st.status, message := st.message,
                                           firstSeen := st.occurredAt, lastSeen := st.occurredAt)];
        } else {
          states := states[st.name := cur.(lastSeen := st.occurredAt, message := st.message)];
        }
      }
    }

    /** The second half: the history; each statement leaves the constraints of the table intact. */
    method UpdateHistory(st: Staged)
      requires HistoryOk(history)
      modifies `history, `anomalies
      ensures HistoryOk(history)
      ensures history == Process(old(View()), st).history && anomalies == Process(old(View()), st).anomalies
    {
      var prev := SelectPrev(st.name, st.occurredAt);
      PrevUnique(history, st.name, st.occurredAt, prev, PrevOf(history, st.name, st.occurredAt));
      HistoryNextOk(history, prev, st);
      if prev.None? {
        assert Unclaimed(history, Opened(st));
        history := history + {Opened(st)};
      } else if && prev.value.endedAt.None? && st.occurredAt > prev.value.tentativeEndedAt
                && prev.value.status == st.status {
        history := history - {prev.value} + {prev.value.(tentativeEndedAt := st.occurredAt)};
      } else if && prev.value.endedAt.None? && prev.value.tentativeEndedAt < st.occurredAt
                && prev.value.status != st.status {
        history := history - {prev.value}
                   + {prev.value.(endedAt := Some(st.occurredAt), tentativeEndedAt := st.occurredAt)};
        assert HistoryOk(history) && Unclaimed(history, Opened(st));
        history := history + {Opened(st)};
      } else {
        anomalies := anomalies + multiset{st};
      }
    }

    /** `reconcile()` over the rows its cursor returned. */
    method Reconcile(batch: seq<Staged>) returns (n: nat)
      requires TablesOk(View()) && IsBatch(staging, batch)
      modifies this
      ensures TablesOk(View()) && View() == ProcessAll(old(View()), batch)
      ensures staging == Remaining(old(staging), batch)
      ensures n == |batch|
    {
      hide IsBatch, HistoryOk;
      n := 0;
      for i := 0 to |batch|
        invariant n == i
        invariant TablesOk(View()) && View() == ProcessAll(old(View()), batch[..i])
        invariant staging == Remaining(old(staging), batch[..i])
      {
        var st := batch[i];
        n := n + 1;
        UpdateStates(st);
        UpdateHistory(st);
        staging := staging[st := 0];
        assert Front(batch[..i + 1]) == batch[..i] && Last(batch[..i + 1]) == st;
      }
      assert batch[..|batch|] == batch;
    }
  }
}
