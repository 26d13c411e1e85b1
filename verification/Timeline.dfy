/**
 What the history says when records are staged in time order: it tiles time, agrees with the table
 of current states, and answers every "what was the status at x" like the list of records itself.
 */
module Timelines {
  import opened Basics
  import opened Reconcile

  const EMPTY := Tables(map[], {}, multiset{})

  ghost predicate OrderedPerName(done: seq<Staged>) {
    forall i, j | 0 <= i < j < |done| && done[i].name == done[j].name :: done[i].occurredAt <= done[j].occurredAt
  }

  // ---------------------------------------------------------------- tiling

  /** A closed row ends where another row of the same name, with another status, starts. */
  ghost predicate Closed(rows: set<Row>, r: Row) {
    && r.endedAt.Some? && r.tentativeEndedAt == r.endedAt.value
    && exists next :: && next in rows && next.name == r.name
                      && next.startedAt == r.endedAt.value && next.status != r.status
  }

  /** `o` is the one open row of `name` and the last, and `row` describes the same interval. */
  ghost predicate IsOpenRow(rows: set<Row>, name: string, row: StateRow, o: Row) {
    && o in rows && o.name == name && o.endedAt.None?
    && row.status == o.status && row.firstSeen == o.startedAt && row.lastSeen == o.tentativeEndedAt
    && forall r | r in rows && r.name == name && r != o :: r.startedAt < o.startedAt && Closed(rows, r)
  }

  ghost predicate TiledName(states: map<string, StateRow>, rows: set<Row>, name: string) {
    if name in states then exists o :: IsOpenRow(rows, name, states[name], o)
    else forall r | r in rows :: r.name != name
  }

  ghost predicate Tiled(tb: Tables) {
    TablesOk(tb) && forall n :: TiledName(tb.states, tb.history, n)
  }

  /** Other names are not touched by a record. */
  lemma OtherNames(rows: set<Row>, prev: Option<Row>, st: Staged, r: Row)
    requires IsPrev(rows, st.name, st.occurredAt, prev) && r.name != st.name
    ensures r in HistoryNext(rows, prev, st) <==> r in rows
  {
  }

  lemma OtherNameTiled(tb: Tables, st: Staged, n: string)
    requires n != st.name && TiledName(tb.states, tb.history, n)
    ensures var tb' := Process(tb, st); TiledName(tb'.states, tb'.history, n)
  {
    var tb' := Process(tb, st);
    var prev := PrevOf(tb.history, st.name, st.occurredAt);
    forall r: Row | r.name == n ensures r in tb'.history <==> r in tb.history {
      OtherNames(tb.history, prev, st, r);
    }
    if n in tb.states {
      var o :| IsOpenRow(tb.history, n, tb.states[n], o);
      forall r | r in tb'.history && r.name == n && r != o ensures Closed(tb'.history, r) {
        assert Closed(tb.history, r);
      }
      assert IsOpenRow(tb'.history, n, tb'.states[n], o);
    }
  }

  /** The record's own name, when the record is not older than what is known. */
  lemma SameNameTiled(tb: Tables, st: Staged)
    requires TablesOk(tb) && TiledName(tb.states, tb.history, st.name)
    requires st.name in tb.states ==> tb.states[st.name].lastSeen <= st.occurredAt
    ensures var tb' := Process(tb, st); TiledName(tb'.states, tb'.history, st.name)
  {
    var tb' := Process(tb, st);
    var rows, rows', t := tb.history, tb'.history, st.occurredAt;
    var prev := PrevOf(rows, st.name, t);
    if st.name !in tb.states {
      assert IsOpenRow(rows', st.name, tb'.states[st.name], Opened(st));
    } else {
      var o :| IsOpenRow(rows, st.name, tb.states[st.name], o);
      OpenRowIsPrev(rows, st.name, tb.states[st.name], o, t);
      PrevUnique(rows, st.name, t, prev, Some(o));
      match CaseOf(prev, st)
      case Continuation => ContinuationTiled(rows, st, tb.states[st.name], o);
      case Transition => TransitionTiled(rows, st, tb.states[st.name], o);
      case Anomaly =>
        assert IsOpenRow(rows', st.name, tb'.states[st.name], o);
    }
  }

  lemma OpenRowIsPrev(rows: set<Row>, name: string, row: StateRow, o: Row, t: int)
    requires HistoryOk(rows) && IsOpenRow(rows, name, row, o) && row.lastSeen <= t
    ensures IsPrev(rows, name, t, Some(o))
  {
    assert RowOk(o);
  }

  lemma ContinuationTiled(rows: set<Row>, st: Staged, row: StateRow, o: Row)
    requires HistoryOk(rows) && IsOpenRow(rows, st.name, row, o) && CaseOf(Some(o), st).Continuation?
    ensures var o' := o.(tentativeEndedAt := st.occurredAt);
            IsOpenRow(rows - {o} + {o'}, st.name, row.(lastSeen := st.occurredAt, message := st.message), o')
  {
    var o' := o.(tentativeEndedAt := st.occurredAt);
    var rows' := rows - {o} + {o'};
    forall r | r in rows' && r.name == st.name && r != o' ensures r.startedAt < o'.startedAt && Closed(rows', r) {
      ClosedAfterSwap(rows, o, o', r);
    }
  }

  lemma ClosedAfterSwap(rows: set<Row>, o: Row, o': Row, r: Row)
    requires Closed(rows, r) && o'.name == o.name && o'.startedAt == o.startedAt && o'.status == o.status
    ensures Closed(rows - {o} + {o'}, r)
  {
    var next :| next in rows && next.name == r.name && next.startedAt == r.endedAt.value && next.status != r.status;
    var next' := if next == o then o' else next;
    assert next' in rows - {o} + {o'};
  }

  lemma TransitionTiled(rows: set<Row>, st: Staged, row: StateRow, o: Row)
    requires HistoryOk(rows) && IsOpenRow(rows, st.name, row, o) && CaseOf(Some(o), st).Transition?
    ensures IsOpenRow(HistoryNext(rows, Some(o), st), st.name,
                      StateRow(st.status, st.message, st.occurredAt, st.occurredAt), Opened(st))
  {
    var t := st.occurredAt;
    var o' := o.(endedAt := Some(t), tentativeEndedAt := t);
    var swapped := rows - {o} + {o'};
    var rows' := swapped + {Opened(st)};
    assert RowOk(o);
    forall r | r in rows' && r.name == st.name && r != Opened(st)
      ensures r.startedAt < t && Closed(rows', r)
    {
      if r == o' {
        assert Opened(st) in rows';
      } else {
        ClosedAfterSwap(rows, o, o', r);
        var next :| && next in swapped && next.name == r.name
                    && next.startedAt == r.endedAt.value && next.status != r.status;
        assert next in rows';
      }
    }
  }

  // ---------------------------------------------------------------- runs

  /** What is known about a name is the latest record processed for it. */
  ghost predicate UpToDate(tb: Tables, done: seq<Staged>) {
    && (forall d | d in done :: d.name in tb.states && d.occurredAt <= tb.states[d.name].lastSeen)
    && (forall n | n in tb.states :: exists d :: d in done && d.name == n && d.occurredAt == tb.states[n].lastSeen)
  }

  lemma OrderedParts(done: seq<Staged>)
    requires OrderedPerName(done) && done != []
    ensures OrderedPerName(Front(done))
    ensures forall d | d in Front(done) && d.name == Last(done).name :: d.occurredAt <= Last(done).occurredAt
  {
    assert forall i | 0 <= i < |Front(done)| :: Front(done)[i] == done[i];
    assert done[|done| - 1] == Last(done);
  }

  /**
   Records processed in time order tile time: each known name has exactly one open row, the last;
   each closed row ends where the next, of another status, starts; and the current-state row
   describes the open row.
   */
  lemma {:induction false} HistoryTiles(done: seq<Staged>)
    requires OrderedPerName(done)
    ensures Tiled(ProcessAll(EMPTY, done)) && UpToDate(ProcessAll(EMPTY, done), done)
  {
    hide Tiled, UpToDate, Process, OrderedPerName;
    if done == [] {
      NothingTiles();
    } else {
      var before, st := Front(done), Last(done);
      OrderedParts(done);
      HistoryTiles(before);
      StepTiles(ProcessAll(EMPTY, before), before, st);
      assert done == before + [st];
    }
  }

  lemma NothingTiles()
    ensures Tiled(EMPTY) && UpToDate(EMPTY, [])
  {
  }

  lemma StepTiles(tb: Tables, before: seq<Staged>, st: Staged)
    requires Tiled(tb) && UpToDate(tb, before)
    requires forall d | d in before && d.name == st.name :: d.occurredAt <= st.occurredAt
    ensures Tiled(Process(tb, st)) && UpToDate(Process(tb, st), before + [st])
  {
    hide IsOpenRow, HistoryOk, HistoryNext;
    var tb' := Process(tb, st);
    HistoryNextOk(tb.history, PrevOf(tb.history, st.name, st.occurredAt), st);
    if st.name in tb.states {
      var d :| d in before && d.name == st.name && d.occurredAt == tb.states[st.name].lastSeen;
    }
    forall n ensures TiledName(tb'.states, tb'.history, n) {
      if n == st.name { SameNameTiled(tb, st); } else { OtherNameTiled(tb, st, n); }
    }
    StepUpToDate(tb, before, st);
  }

  lemma StepUpToDate(tb: Tables, before: seq<Staged>, st: Staged)
    requires UpToDate(tb, before)
    requires forall d | d in before && d.name == st.name :: d.occurredAt <= st.occurredAt
    ensures UpToDate(Process(tb, st), before + [st])
  {
    hide HistoryNext;
    var states, states', done := tb.states, StatesNext(tb.states, st), before + [st];
    assert st in done;
    forall n | n in states' ensures exists d :: d in done && d.name == n && d.occurredAt == states'[n].lastSeen {
      if n in states && states'[n].lastSeen == states[n].lastSeen {
        var d :| d in before && d.name == n && d.occurredAt == states[n].lastSeen;
        assert d in done;
      }
    }
  }

  // ---------------------------------------------------------------- meaning

  /** The status the history records for time `x`. */
  ghost function StatusAt(rows: set<Row>, name: string, x: int): Option<Status> {
    var prev := PrevOf(rows, name, x);
    if prev.None? then None else Some(prev.value.status)
  }

  /** The status of the latest record of that name up to time `x`; of two records at one time, the first counts. */
  function LatestAt(done: seq<Staged>, name: string, x: int): Option<Status> {
    if done == [] then None
    else
      var before, st := Front(done), Last(done);
      if && st.name == name && st.occurredAt <= x
         && (forall d | d in before && d.name == name :: d.occurredAt < st.occurredAt)
      then Some(st.status) else LatestAt(before, name, x)
  }

  lemma StatusAtIs(rows: set<Row>, name: string, x: int, prev: Option<Row>)
    requires HistoryOk(rows) && IsPrev(rows, name, x, prev)
    ensures StatusAt(rows, name, x) == if prev.None? then None else Some(prev.value.status)
  {
    PrevUnique(rows, name, x, prev, PrevOf(rows, name, x));
  }

  lemma StepStatusOther(tb: Tables, st: Staged, n: string, x: int)
    requires Tiled(tb) && TablesOk(Process(tb, st)) && n != st.name
    ensures StatusAt(Process(tb, st).history, n, x) == StatusAt(tb.history, n, x)
  {
    var rows, rows' := tb.history, Process(tb, st).history;
    forall r: Row | r.name == n ensures r in rows' <==> r in rows {
      OtherNames(rows, PrevOf(rows, st.name, st.occurredAt), st, r);
    }
    assert IsPrev(rows', n, x, PrevOf(rows, n, x));
    StatusAtIs(rows', n, x, PrevOf(rows, n, x));
  }

  /** Replacing a row by one with the same name, start and status does not change any answer. */
  lemma SwapKeepsStatus(rows: set<Row>, o: Row, o': Row, n: string, x: int)
    requires HistoryOk(rows) && HistoryOk(rows - {o} + {o'}) && o in rows
    requires o'.name == o.name && o'.startedAt == o.startedAt && o'.status == o.status
    ensures StatusAt(rows - {o} + {o'}, n, x) == StatusAt(rows, n, x)
  {
    var rows' := rows - {o} + {o'};
    var p := PrevOf(rows, n, x);
    var p' := if p == Some(o) then Some(o') else p;
    assert IsPrev(rows', n, x, p') by {
      assert forall r | r in rows' :: r in rows || r == o';
    }
    StatusAtIs(rows', n, x, p');
  }

  /** Adding a row that starts after all others of its name decides the status from its start on. */
  lemma AddDecidesStatus(rows: set<Row>, row: Row, x: int)
    requires HistoryOk(rows) && HistoryOk(rows + {row})
    requires forall r | r in rows && r.name == row.name :: r.startedAt < row.startedAt
    ensures StatusAt(rows + {row}, row.name, x) ==
            if row.startedAt <= x then Some(row.status) else StatusAt(rows, row.name, x)
  {
    var rows' := rows + {row};
    if row.startedAt <= x {
      assert IsPrev(rows', row.name, x, Some(row));
      StatusAtIs(rows', row.name, x, Some(row));
    } else {
      assert IsPrev(rows', row.name, x, PrevOf(rows, row.name, x));
      StatusAtIs(rows', row.name, x, PrevOf(rows, row.name, x));
    }
  }

  /** A record newer than all before it decides the status from its time on; a tie changes nothing. */
  lemma StepStatus(tb: Tables, st: Staged, x: int)
    requires Tiled(tb) && Tiled(Process(tb, st))
    requires st.name in tb.states ==> tb.states[st.name].lastSeen <= st.occurredAt
    ensures var news := st.name !in tb.states || tb.states[st.name].lastSeen < st.occurredAt;
            StatusAt(Process(tb, st).history, st.name, x)
            == if news && st.occurredAt <= x then Some(st.status) else StatusAt(tb.history, st.name, x)
  {
    hide StatusAt;
    var rows, t := tb.history, st.occurredAt;
    var prev := PrevOf(rows, st.name, t);
    assert TiledName(tb.states, rows, st.name);
    HistoryNextOk(rows, prev, st);
    if st.name !in tb.states {
      AddDecidesStatus(rows, Opened(st), x);
    } else {
      var o :| IsOpenRow(rows, st.name, tb.states[st.name], o);
      OpenRowIsPrev(rows, st.name, tb.states[st.name], o, t);
      PrevUnique(rows, st.name, t, prev, Some(o));
      assert RowOk(o);
      match CaseOf(prev, st)
      case Continuation => ContinuationStatus(rows, st, tb.states[st.name], o, x);
      case Transition => TransitionStatus(rows, st, tb.states[st.name], o, x);
      case Anomaly =>
    }
  }

  lemma ContinuationStatus(rows: set<Row>, st: Staged, row: StateRow, o: Row, x: int)
    requires HistoryOk(rows) && IsOpenRow(rows, st.name, row, o) && CaseOf(Some(o), st).Continuation?
    requires HistoryOk(HistoryNext(rows, Some(o), st))
    ensures StatusAt(HistoryNext(rows, Some(o), st), st.name, x)
            == if st.occurredAt <= x then Some(st.status) else StatusAt(rows, st.name, x)
  {
    hide StatusAt, HistoryOk;
    SwapKeepsStatus(rows, o, o.(tentativeEndedAt := st.occurredAt), st.name, x);
    if st.occurredAt <= x {
      OpenRowIsPrev(rows, st.name, row, o, x);
      StatusAtIs(rows, st.name, x, Some(o));
    }
  }

  lemma TransitionStatus(rows: set<Row>, st: Staged, row: StateRow, o: Row, x: int)
    requires HistoryOk(rows) && IsOpenRow(rows, st.name, row, o) && CaseOf(Some(o), st).Transition?
    requires IsPrev(rows, st.name, st.occurredAt, Some(o))
    ensures StatusAt(HistoryNext(rows, Some(o), st), st.name, x)
            == if st.occurredAt <= x then Some(st.status) else StatusAt(rows, st.name, x)
  {
    hide StatusAt, HistoryOk;
    var o' := o.(endedAt := Some(st.occurredAt), tentativeEndedAt := st.occurredAt);
    TransitionKeepsOk(rows, o, st);
    SwapKeepsStatus(rows, o, o', st.name, x);
    OpenStartsEarlier(rows, st.name, row, o);
    AddDecidesStatus(rows - {o} + {o'}, Opened(st), x);
  }

  lemma OpenStartsEarlier(rows: set<Row>, name: string, row: StateRow, o: Row)
    requires HistoryOk(rows) && IsOpenRow(rows, name, row, o)
    ensures forall r | r in rows && r.name == name :: r.startedAt <= o.startedAt <= o.tentativeEndedAt
  {
    assert RowOk(o);
  }

  /**
   The timeline is faithful: for records processed in time order, the history answers every question
   "what was the status of n at time x" like the list of records itself.
   */
  lemma {:induction false} TimelineIsFaithful(done: seq<Staged>, name: string, x: int)
    requires OrderedPerName(done)
    ensures StatusAt(ProcessAll(EMPTY, done).history, name, x) == LatestAt(done, name, x)
  {
    if done == [] {
      StatusAtIs({}, name, x, None);
    } else {
      hide Tiled, Process, OrderedPerName, StatusAt;
      var before, st := Front(done), Last(done);
      var tb := ProcessAll(EMPTY, before);
      OrderedParts(done);
      TimelineIsFaithful(before, name, x);
      HistoryTiles(before);
      HistoryTiles(done);
      if name != st.name {
        assert TablesOk(Process(tb, st)) by { TiledIsOk(Process(tb, st)); }
        StepStatusOther(tb, st, name, x);
      } else {
        NewsIsLatest(tb, before, st);
        StepStatus(tb, st, x);
      }
    }
  }

  lemma TiledIsOk(tb: Tables)
    requires Tiled(tb)
    ensures TablesOk(tb)
  {
  }

  lemma NewsIsLatest(tb: Tables, before: seq<Staged>, st: Staged)
    requires UpToDate(tb, before)
    requires forall d | d in before && d.name == st.name :: d.occurredAt <= st.occurredAt
    ensures st.name in tb.states ==> tb.states[st.name].lastSeen <= st.occurredAt
    ensures (st.name !in tb.states || tb.states[st.name].lastSeen < st.occurredAt)
            <==> (forall d | d in before && d.name == st.name :: d.occurredAt < st.occurredAt)
  {
    if st.name in tb.states {
      var d :| d in before && d.name == st.name && d.occurredAt == tb.states[st.name].lastSeen;
    }
  }

  // ---------------------------------------------------------------- anomalies

  /** The records that are no later than one of the same name before them. */
  ghost function Repeats(done: seq<Staged>): multiset<Staged> {
    if done == [] then multiset{}
    else if exists d :: d in Front(done) && d.name == Last(done).name && Last(done).occurredAt <= d.occurredAt
    then Repeats(Front(done)) + multiset{Last(done)}
    else Repeats(Front(done))
  }

  /** For records in time order, the anomalies are exactly the records that repeat the time of one before them. */
  lemma {:induction false} AnomaliesAreRepeats(done: seq<Staged>)
    requires OrderedPerName(done)
    ensures ProcessAll(EMPTY, done).anomalies == Repeats(done)
  {
    hide Tiled, UpToDate, OrderedPerName, HistoryNext, StatesNext;
    if done == [] {
    } else {
      var before, st := Front(done), Last(done);
      var tb := ProcessAll(EMPTY, before);
      OrderedParts(done);
      AnomaliesAreRepeats(before);
      HistoryTiles(before);
      NewsIsLatest(tb, before, st);
      AnomalyIffKnown(tb, st);
    }
  }

  /** A record that is not older than what is known is an anomaly exactly when it is not newer either. */
  lemma AnomalyIffKnown(tb: Tables, st: Staged)
    requires Tiled(tb) && (st.name in tb.states ==> tb.states[st.name].lastSeen <= st.occurredAt)
    ensures CaseOf(PrevOf(tb.history, st.name, st.occurredAt), st).Anomaly?
            <==> st.name in tb.states && tb.states[st.name].lastSeen == st.occurredAt
  {
    hide HistoryOk;
    var rows, t := tb.history, st.occurredAt;
    assert TiledName(tb.states, rows, st.name);
    if st.name in tb.states {
      var o :| IsOpenRow(rows, st.name, tb.states[st.name], o);
      OpenRowIsPrev(rows, st.name, tb.states[st.name], o, t);
      PrevUnique(rows, st.name, t, PrevOf(rows, st.name, t), Some(o));
    }
  }

  // ---------------------------------------------------------------- staging and passes

  /** The life of the staging table: records arrive, and passes take batches off it. */
  datatype StagingOp = Arrive(st: Staged) | Pass(batch: seq<Staged>)

  ghost function StagingAfter(ops: seq<StagingOp>): multiset<Staged> {
    if ops == [] then multiset{}
    else match Last(ops)
      case Arrive(st) => StagingAfter(Front(ops)) + multiset{st}
      case Pass(batch) => Remaining(StagingAfter(Front(ops)), batch)
  }

  function Arrived(ops: seq<StagingOp>): seq<Staged> {
    if ops == [] then []
    else match Last(ops)
      case Arrive(st) => Arrived(Front(ops)) + [st]
      case Pass(_) => Arrived(Front(ops))
  }

  /** The records processed, in order. */
  function Done(ops: seq<StagingOp>): seq<Staged> {
    if ops == [] then []
    else match Last(ops)
      case Arrive(_) => Done(Front(ops))
      case Pass(batch) => Done(Front(ops)) + batch
  }

  /** Every pass takes the batch its cursor returns. */
  ghost predicate Legal(ops: seq<StagingOp>) {
    ops != [] ==> Legal(Front(ops)) && (Last(ops).Pass? ==> IsBatch(StagingAfter(Front(ops)), Last(ops).batch))
  }

  lemma {:induction false} RemainingHolds(staging: multiset<Staged>, batch: seq<Staged>, r: Staged)
    ensures Remaining(staging, batch)[r] == if r in batch then 0 else staging[r]
  {
    if batch == [] {
    } else {
      RemainingHolds(staging, Front(batch), r);
      assert batch == Front(batch) + [Last(batch)];
    }
  }

  /** What was processed is no later than what is still staged, and both together are what arrived. */
  ghost predicate Behind(done: seq<Staged>, staging: multiset<Staged>, arrived: seq<Staged>) {
    && (forall d, r | d in done && r in staging && d.name == r.name :: d.occurredAt <= r.occurredAt)
    && (forall d | d in done :: d in arrived)
    && (forall r | r in staging :: r in arrived)
    && (forall r | r in arrived :: r in done || r in staging)
  }

  lemma OrderedConcat(a: seq<Staged>, b: seq<Staged>)
    requires OrderedPerName(a)
    requires forall i, j | 0 <= i < j < |b| :: b[i].occurredAt <= b[j].occurredAt
    requires forall d, r | d in a && r in b && d.name == r.name :: d.occurredAt <= r.occurredAt
    ensures OrderedPerName(a + b)
  {
    var c := a + b;
    forall i, j | 0 <= i < j < |c| && c[i].name == c[j].name ensures c[i].occurredAt <= c[j].occurredAt {
      if j >= |a| > i {
        assert c[i] in a && c[j] in b;
      } else if i >= |a| {
        assert c[i] == b[i - |a|] && c[j] == b[j - |a|];
      }
    }
  }

  lemma PassStaysBehind(done: seq<Staged>, staging: multiset<Staged>, arrived: seq<Staged>, batch: seq<Staged>)
    requires OrderedPerName(done) && Behind(done, staging, arrived) && IsBatch(staging, batch)
    ensures OrderedPerName(done + batch) && Behind(done + batch, Remaining(staging, batch), arrived)
  {
    forall b | b in batch ensures b in staging {
      assert b in multiset(batch);
    }
    OrderedConcat(done, batch);
    forall r | r in Remaining(staging, batch)
      ensures r in staging && r in staging - multiset(batch)
    {
      RemainingHolds(staging, batch, r);
      assert r !in batch && r !in multiset(batch);
    }
    forall r | r in arrived ensures r in done + batch || r in Remaining(staging, batch) {
      RemainingHolds(staging, batch, r);
    }
  }

  /** Records that arrive in time order per name are processed in time order per name, whatever the batching. */
  lemma {:induction false} ProcessedInOrder(ops: seq<StagingOp>)
    requires Legal(ops) && OrderedPerName(Arrived(ops))
    ensures OrderedPerName(Done(ops)) && Behind(Done(ops), StagingAfter(ops), Arrived(ops))
  {
    hide IsBatch, OrderedPerName, Behind;
    if ops == [] {
      NothingBehind();
    } else {
      var before := Front(ops);
      match Last(ops)
      case Arrive(st) =>
        var arrived := Arrived(ops);
        OrderedParts(arrived);
        assert Front(arrived) == Arrived(before) && Last(arrived) == st;
        ProcessedInOrder(before);
        ArriveStaysBehind(Done(before), StagingAfter(before), Arrived(before), st);
      case Pass(batch) =>
        ProcessedInOrder(before);
        PassStaysBehind(Done(before), StagingAfter(before), Arrived(before), batch);
    }
  }

  /** Every record that arrived is processed or still staged, and there are no others, in whatever order they come. */
  lemma {:induction false} AllAccountedFor(ops: seq<StagingOp>)
    requires Legal(ops)
    ensures forall r :: r in Arrived(ops) <==> r in Done(ops) || r in StagingAfter(ops)
  {
    hide Remaining;
    if ops == [] {
    } else {
      AllAccountedFor(Front(ops));
      match Last(ops)
      case Arrive(_) =>
      case Pass(batch) =>
        var staging := StagingAfter(Front(ops));
        forall r ensures r in batch || r in Remaining(staging, batch) <==> r in staging {
          RemainingHolds(staging, batch, r);
          assert r in batch <==> r in multiset(batch);
        }
    }
  }

  lemma NothingBehind()
    ensures OrderedPerName([]) && Behind([], multiset{}, [])
  {
  }

  lemma ArriveStaysBehind(done: seq<Staged>, staging: multiset<Staged>, arrived: seq<Staged>, st: Staged)
    requires Behind(done, staging, arrived)
    requires forall d | d in arrived && d.name == st.name :: d.occurredAt <= st.occurredAt
    ensures Behind(done, staging + multiset{st}, arrived + [st])
  {
  }

  /**
   The whole pipeline: if records arrive in time order per name, then after any interleaving of
   arrivals and passes the history tiles time and answers like the records processed so far.
   */
  lemma PipelineIsFaithful(ops: seq<StagingOp>, name: string, x: int)
    requires Legal(ops) && OrderedPerName(Arrived(ops))
    ensures Tiled(ProcessAll(EMPTY, Done(ops)))
    ensures StatusAt(ProcessAll(EMPTY, Done(ops)).history, name, x) == LatestAt(Done(ops), name, x)
  {
    ProcessedInOrder(ops);
    HistoryTiles(Done(ops));
    TimelineIsFaithful(Done(ops), name, x);
  }

  /** Any interleaving of arrivals and passes, carried out on the tables. */
  method RunPasses(w: Warehouse, ops: seq<StagingOp>)
    requires w.View() == EMPTY && w.staging == multiset{} && Legal(ops)
    modifies w
    ensures w.View() == ProcessAll(EMPTY, Done(ops)) && w.staging == StagingAfter(ops)
    ensures OrderedPerName(Arrived(ops)) ==>
              && Tiled(w.View())
              && w.anomalies == Repeats(Done(ops))
              && forall name, x :: StatusAt(w.history, name, x) == LatestAt(Done(ops), name, x)
    ensures forall d | d in Done(ops) :: Kept(w.View(), d)
  {
    hide Kept, Repeats;
    hide Process, ProcessAll, IsBatch, Tiled, StatusAt, OrderedPerName, TablesOk, Remaining;
    NothingTiles();
    TiledIsOk(EMPTY);
    NothingProcessed();
    for i := 0 to |ops|
      invariant TablesOk(w.View()) && w.View() == ProcessAll(EMPTY, Done(ops[..i]))
      invariant w.staging == StagingAfter(ops[..i])
    {
      LegalPrefix(ops, i + 1);
      assert Front(ops[..i + 1]) == ops[..i] && Last(ops[..i + 1]) == ops[i];
      match ops[i] {
        case Arrive(st) =>
          w.Arrive(st);
        case Pass(batch) =>
          ProcessAllConcat(EMPTY, Done(ops[..i]), batch);
          var n := w.Reconcile(batch);
      }
    }
    assert ops[..|ops|] == ops;
    if OrderedPerName(Arrived(ops)) {
      forall name, x ensures StatusAt(w.history, name, x) == LatestAt(Done(ops), name, x) {
        PipelineIsFaithful(ops, name, x);
      }
      PipelineIsFaithful(ops, "", 0);
      ProcessedInOrder(ops);
      AnomaliesAreRepeats(Done(ops));
    }
    NothingDropped(EMPTY, Done(ops));
  }

  lemma NothingProcessed()
    ensures ProcessAll(EMPTY, Done([])) == EMPTY
  {
  }

  lemma {:induction false} LegalPrefix(ops: seq<StagingOp>, i: nat)
    requires Legal(ops) && i <= |ops|
    ensures Legal(ops[..i])
  {
    hide IsBatch;
    if i == |ops| {
      assert ops[..i] == ops;
    } else {
      LegalPrefix(Front(ops), i);
      assert Front(ops)[..i] == ops[..i];
    }
  }
}
