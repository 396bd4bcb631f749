/**
 The alerting checker of backend/modules/alerting/checker.py: capped, oldest-first batches, with the
 notification and the alerted flag committed together. Ticks do not overlap.
 */
module Alerting {
  import opened Prelude

  const MAX_ALERTS: nat := 100

  /** Which check a failed row belongs to: the push log or the sync jobs. */
  datatype Kind = Push | Sync

  /**
   A row that failed at least once; it may have left the failed status since, by a retry of the push or a patch of the
   job. Premarked rows were flagged by the migration that added the column.
   */
  datatype Row = Row(kind: Kind, time: int, failed: bool, alerted: bool, premarked: bool)

  datatype Source = Failed(row: nat) | SchedulerDown

  datatype Notification = Notification(source: Source, isRead: bool)

  datatype State = State(rows: map<nat, Row>, notes: seq<Notification>)

  datatype Heartbeat = NeverRan | RanAt(at: int, intervalHours: int)

  datatype Event =
    | NewFailure(id: nat, kind: Kind, time: int)
    | LeavesFailed(id: nat)
    | FailsAgain(id: nat, kind: Kind, time: int)
    | Check(kind: Kind, batch: seq<nat>)
    | CheckRolledBack
    | HeartbeatCheck(beat: Heartbeat, now: int)
    | MarkRead(index: nat)
    | ReadAll

  predicate Pending(s: State, kind: Kind, id: nat) {
    id in s.rows && s.rows[id].kind == kind && s.rows[id].failed && !s.rows[id].alerted
  }

  function PendingRows(s: State, kind: Kind): set<nat> {
    set id | id in s.rows && Pending(s, kind, id)
  }

  /** A result of the query: pending rows, oldest first, at most MAX_ALERTS; ties may fall either way. */
  ghost predicate Selected(s: State, kind: Kind, batch: seq<nat>) {
    && Distinct(batch)
    && (forall i :: 0 <= i < |batch| ==> Pending(s, kind, batch[i]))
    && (forall i, j :: 0 <= i < j < |batch| ==> s.rows[batch[i]].time <= s.rows[batch[j]].time)
    && (forall i, id :: 0 <= i < |batch| && Pending(s, kind, id) && id !in batch ==>
          s.rows[batch[i]].time <= s.rows[id].time)
    && |batch| == if |PendingRows(s, kind)| <= MAX_ALERTS then |PendingRows(s, kind)| else MAX_ALERTS
  }

  lemma SelectedRows(s: State, kind: Kind, batch: seq<nat>)
    requires Selected(s, kind, batch)
    ensures forall id :: id in batch ==> Pending(s, kind, id)
  {
  }

  /** One row of the batch: its notification and its flag. */
  function Alert(s: State, id: nat): State
    requires id in s.rows
  {
    State(s.rows[id := s.rows[id].(alerted := true)], s.notes + [Notification(Failed(id), false)])
  }

  function AlertAll(s: State, batch: seq<nat>): State
    requires forall id :: id in batch ==> id in s.rows
    ensures AlertAll(s, batch).rows.Keys == s.rows.Keys
  {
    if batch == [] then s
    else
      assert forall id :: id in Init(batch) ==> id in batch;
      assert Last(batch) in batch;
      Alert(AlertAll(s, Init(batch)), Last(batch))
  }

  predicate Stale(beat: Heartbeat, now: int) {
    beat.RanAt? && (now - beat.at) as real > beat.intervalHours as real * 3600.0 * 2.5
  }

  predicate UnreadDown(n: Notification) {
    n.source.SchedulerDown? && !n.isRead
  }

  function CountUnreadDown(notes: seq<Notification>): nat {
    if notes == [] then 0 else CountUnreadDown(Init(notes)) + if UnreadDown(Last(notes)) then 1 else 0
  }

  function Read(n: Notification): Notification {
    n.(isRead := true)
  }

  function AllRead(notes: seq<Notification>): (r: seq<Notification>)
    ensures |r| == |notes|
  {
    seq(|notes|, i requires 0 <= i < |notes| => Read(notes[i]))
  }

  ghost predicate Enabled(s: State, e: Event) {
    match e
    case NewFailure(id, _, _) => id !in s.rows
    case LeavesFailed(id) => id in s.rows && s.rows[id].failed
    case FailsAgain(id, kind, _) => id in s.rows && s.rows[id].kind == kind && !s.rows[id].failed
    case Check(kind, batch) => Selected(s, kind, batch)
    case CheckRolledBack => true
    case HeartbeatCheck(_, _) => true
    case MarkRead(index) => index < |s.notes|
    case ReadAll => true
  }

  ghost function Apply(s: State, e: Event): State
    requires Enabled(s, e)
  {
    match e
    case NewFailure(id, kind, time) => s.(rows := s.rows[id := Row(kind, time, true, false, false)])
    // neither touches the alerted flag
    case LeavesFailed(id) => s.(rows := s.rows[id := s.rows[id].(failed := false)])
    case FailsAgain(id, _, time) => s.(rows := s.rows[id := s.rows[id].(failed := true, time := time)])
    case Check(_, batch) => AlertAll(s, batch)
    case CheckRolledBack => s
    case HeartbeatCheck(beat, now) =>
      if Stale(beat, now) && CountUnreadDown(s.notes) == 0
      then s.(notes := s.notes + [Notification(SchedulerDown, false)]) else s
    case MarkRead(index) => s.(notes := s.notes[index := Read(s.notes[index])])
    case ReadAll => s.(notes := AllRead(s.notes))
  }

  ghost predicate ValidRun(s: State, events: seq<Event>)
    decreases |events|
  {
    events == [] || (Enabled(s, events[0]) && ValidRun(Apply(s, events[0]), events[1..]))
  }

  ghost function After(s: State, events: seq<Event>): State
    requires ValidRun(s, events)
    decreases |events|
  {
    if events == [] then s else After(Apply(s, events[0]), events[1..])
  }

  // ---------------------------------------------------------------- the checks as they run

  class AlertStore {
    var rows: map<nat, Row>
    var notes: seq<Notification>

    function Current(): State
      reads this
    {
      State(rows, notes)
    }

    /** _check_push_failures and _check_sync_failures over the rows the query returned. */
    method CheckFailures(kind: Kind, batch: seq<nat>)
      requires Selected(Current(), kind, batch)
      modifies this
      ensures Current() == Apply(old(Current()), Check(kind, batch))
    {
      hide Selected;
      if batch == [] {
        return;
      }
      SelectedRows(Current(), kind, batch);
      for i := 0 to |batch|
        invariant forall id :: id in batch[..i] ==> id in old(rows)
        invariant Current() == AlertAll(old(Current()), batch[..i])
      {
        assert batch[i] in batch;
        assert Init(batch[..i + 1]) == batch[..i];
        notes := notes + [Notification(Failed(batch[i]), false)];
        rows := rows[batch[i] := rows[batch[i]].(alerted := true)];
      }
      assert batch[..|batch|] == batch;
    }

    /** scalar_one_or_none raises on two unread alerts; ExactlyOnceOverRuns shows there never are two. */
    method CheckSchedulerHeartbeat(beat: Heartbeat, now: int)
      requires CountUnreadDown(notes) <= 1
      modifies this`notes
      ensures Current() == Apply(old(Current()), HeartbeatCheck(beat, now))
    {
      if !Stale(beat, now) {
        return;
      }
      if CountUnreadDown(notes) == 1 {
        return;
      }
      notes := notes + [Notification(SchedulerDown, false)];
    }
  }

  // ---------------------------------------------------------------- exactly once

  function CountFor(notes: seq<Notification>, id: nat): nat {
    if notes == [] then 0 else CountFor(Init(notes), id) + if Last(notes).source == Failed(id) then 1 else 0
  }

  lemma {:induction false} ReadingKeepsCounts(notes: seq<Notification>, index: nat, id: nat)
    requires index < |notes|
    ensures CountFor(notes[index := Read(notes[index])], id) == CountFor(notes, id)
    ensures CountUnreadDown(notes[index := Read(notes[index])]) <= CountUnreadDown(notes)
  {
    var after := notes[index := Read(notes[index])];
    if index == |notes| - 1 {
      assert Init(after) == Init(notes);
    } else {
      assert Init(after) == Init(notes)[index := Read(Init(notes)[index])];
      ReadingKeepsCounts(Init(notes), index, id);
    }
  }

  lemma {:induction false} ReadAllKeepsCounts(notes: seq<Notification>, id: nat)
    ensures CountFor(AllRead(notes), id) == CountFor(notes, id)
    ensures CountUnreadDown(AllRead(notes)) == 0
  {
    if notes != [] {
      assert Init(AllRead(notes)) == AllRead(Init(notes));
      ReadAllKeepsCounts(Init(notes), id);
    }
  }

  ghost predicate ExactlyOnce(s: State) {
    forall id :: CountFor(s.notes, id) == if id in s.rows && s.rows[id].alerted && !s.rows[id].premarked then 1 else 0
  }

  /** Premarked rows are flagged from the start. */
  predicate Marked(s: State) {
    forall id :: id in s.rows && s.rows[id].premarked ==> s.rows[id].alerted
  }

  lemma AlertCounts(s: State, id: nat, other: nat)
    requires id in s.rows
    ensures CountFor(Alert(s, id).notes, other) == CountFor(s.notes, other) + if other == id then 1 else 0
    ensures CountUnreadDown(Alert(s, id).notes) == CountUnreadDown(s.notes)
  {
    assert Init(Alert(s, id).notes) == s.notes;
  }

  lemma {:induction false} AlertAllIs(s: State, batch: seq<nat>)
    requires forall id :: id in batch ==> id in s.rows
    requires Distinct(batch)
    ensures var t := AlertAll(s, batch);
            && (forall id :: CountFor(t.notes, id) == CountFor(s.notes, id) + if id in batch then 1 else 0)
            && CountUnreadDown(t.notes) == CountUnreadDown(s.notes)
            && (forall id :: id in s.rows ==>
                 t.rows[id] == if id in batch then s.rows[id].(alerted := true) else s.rows[id])
  {
    if batch != [] {
      var front, last := Init(batch), Last(batch);
      InitLast(batch);
      AlertAllIs(s, front);
      forall id ensures CountFor(AlertAll(s, batch).notes, id) == CountFor(s.notes, id) + if id in batch then 1 else 0 {
        AlertCounts(AlertAll(s, front), last, id);
        assert last !in front;
      }
    }
  }

  ghost predicate Inv(s: State) {
    ExactlyOnce(s) && Marked(s) && CountUnreadDown(s.notes) <= 1
  }

  lemma AlertAllKeepsInv(s: State, batch: seq<nat>)
    requires Inv(s) && Distinct(batch)
    requires forall id :: id in batch ==> id in s.rows
    requires forall id :: id in batch ==> !s.rows[id].alerted && !s.rows[id].premarked
    ensures Inv(AlertAll(s, batch))
  {
    hide CountFor, CountUnreadDown, AlertAll, Distinct;
    AlertAllIs(s, batch);
  }

  lemma CheckKeepsInv(s: State, kind: Kind, batch: seq<nat>)
    requires Inv(s) && Selected(s, kind, batch)
    requires forall id :: id in batch ==> id in s.rows
    ensures Inv(AlertAll(s, batch))
  {
    SelectedRows(s, kind, batch);
    assert Distinct(batch);
    hide Selected, ExactlyOnce, AlertAll;
    forall id | id in batch ensures !s.rows[id].alerted && !s.rows[id].premarked {
      assert Pending(s, kind, id);
    }
    AlertAllKeepsInv(s, batch);
  }

  lemma ReadsKeepInv(s: State, e: Event)
    requires Inv(s) && Enabled(s, e) && (e.MarkRead? || e.ReadAll?)
    ensures Inv(Apply(s, e))
  {
    hide CountFor, CountUnreadDown;
    var t := Apply(s, e);
    forall id
      ensures CountFor(t.notes, id) == CountFor(s.notes, id) && CountUnreadDown(t.notes) <= CountUnreadDown(s.notes)
    {
      if e.MarkRead? { ReadingKeepsCounts(s.notes, e.index, id); } else { ReadAllKeepsCounts(s.notes, id); }
    }
    assert CountFor(t.notes, 0) == CountFor(s.notes, 0);
  }

  lemma HeartbeatKeepsInv(s: State, beat: Heartbeat, now: int)
    requires Inv(s)
    ensures Inv(Apply(s, HeartbeatCheck(beat, now)))
  {
    hide Stale;
    var t := Apply(s, HeartbeatCheck(beat, now));
    if t != s {
      assert Init(t.notes) == s.notes;
    }
  }

  lemma RowsKeepInv(s: State, e: Event)
    requires Inv(s) && Enabled(s, e) && (e.NewFailure? || e.LeavesFailed? || e.FailsAgain?)
    ensures Inv(Apply(s, e))
  {
    hide CountFor, CountUnreadDown;
  }

  lemma StepKeepsInv(s: State, e: Event)
    requires Inv(s) && Enabled(s, e)
    ensures Inv(Apply(s, e))
  {
    hide Inv;
    match e
    case Check(kind, batch) => CheckKeepsInv(s, kind, batch);
    case HeartbeatCheck(beat, now) => HeartbeatKeepsInv(s, beat, now);
    case MarkRead(_) => ReadsKeepInv(s, e);
    case ReadAll => ReadsKeepInv(s, e);
    case CheckRolledBack =>
    case _ => RowsKeepInv(s, e);
  }

  /**
   Over every run of checks, rolled-back checks, failures, retries and reads, every row has exactly one notification
   if it was alerted by the checker and none otherwise; and there is never more than one unread scheduler alert.
   */
  lemma {:induction false} ExactlyOnceOverRuns(s: State, events: seq<Event>)
    requires Inv(s) && ValidRun(s, events)
    ensures Inv(After(s, events))
    decreases |events|
  {
    hide Inv, Apply, Enabled;
    if events != [] {
      StepKeepsInv(s, events[0]);
      ExactlyOnceOverRuns(Apply(s, events[0]), events[1..]);
    }
  }

  /** The table a first deployment starts from: every failed row already flagged, nothing notified. */
  lemma FirstDeployment(rows: map<nat, Row>)
    requires forall id :: id in rows ==> rows[id].alerted && rows[id].premarked
    ensures Inv(State(rows, []))
  {
  }

  lemma {:induction false} AlertedStays(s: State, r: nat, events: seq<Event>)
    requires ValidRun(s, events) && r in s.rows && s.rows[r].alerted
    ensures var t := After(s, events);
            r in t.rows && t.rows[r].alerted && t.rows[r].premarked == s.rows[r].premarked
    decreases |events|
  {
    if events != [] {
      if events[0].Check? { AlertAllIs(s, events[0].batch); }
      AlertedStays(Apply(s, events[0]), r, events[1..]);
    }
  }

  /**
   The flag is never cleared: a row that was alerted once, or premarked, raises no further notification however often
   it is retried and fails again.
   */
  lemma SecondFailureIsSilent(s: State, r: nat, events: seq<Event>)
    requires Inv(s) && ValidRun(s, events) && r in s.rows && s.rows[r].alerted
    ensures CountFor(After(s, events).notes, r) == CountFor(s.notes, r) == if s.rows[r].premarked then 0 else 1
  {
    hide Apply, Enabled, CountFor, ValidRun, After;
    ExactlyOnceOverRuns(s, events);
    AlertedStays(s, r, events);
  }

  /** A check appends one unread notification for each row of its batch, oldest failure first, and touches no other. */
  lemma {:induction false} AlertsInOrder(s: State, batch: seq<nat>)
    requires forall id :: id in batch ==> id in s.rows
    ensures AlertAll(s, batch).notes == s.notes + seq(|batch|, i requires 0 <= i < |batch| =>
                                                                 Notification(Failed(batch[i]), false))
  {
    if batch == [] {
      assert s.notes + [] == s.notes;
    } else {
      InitLast(batch);
      AlertsInOrder(s, Init(batch));
      assert forall i :: 0 <= i < |batch| - 1 ==> Init(batch)[i] == batch[i];
    }
  }

  lemma OldestFirst(s: State, kind: Kind, batch: seq<nat>, i: nat, j: nat)
    requires Selected(s, kind, batch) && i < j < |batch|
    ensures batch[i] in s.rows && batch[j] in s.rows && s.rows[batch[i]].time <= s.rows[batch[j]].time
    ensures |batch| <= 100
  {
    assert Pending(s, kind, batch[i]) && Pending(s, kind, batch[j]);
  }

  /** Reading changes the read flags it names and nothing else. */
  lemma ReadingEffect(s: State, index: nat, i: nat)
    requires index < |s.notes| && i < |s.notes|
    ensures var one, all := Apply(s, MarkRead(index)), Apply(s, ReadAll);
            && one.rows == all.rows == s.rows && |one.notes| == |all.notes| == |s.notes|
            && one.notes[i] == Notification(s.notes[i].source, s.notes[i].isRead || i == index)
            && all.notes[i] == Notification(s.notes[i].source, true)
  {
  }

  lemma {:induction false} NoneUnread(notes: seq<Notification>)
    ensures CountUnreadDown(notes) == 0 <==>
              forall i :: 0 <= i < |notes| && notes[i].source == SchedulerDown ==> notes[i].isRead
  {
    if notes != [] {
      NoneUnread(Init(notes));
      assert forall i :: 0 <= i < |notes| - 1 ==> Init(notes)[i] == notes[i];
    }
  }

  /**
   Exactly when a heartbeat check reports: the scheduler ran once, more than two and a half intervals ago, and no report
   is unread. Nothing else changes.
   */
  lemma HeartbeatReportedIff(s: State, beat: Heartbeat, now: int)
    ensures var t := Apply(s, HeartbeatCheck(beat, now));
            && t.rows == s.rows
            && (t.notes == s.notes + [Notification(SchedulerDown, false)] <==>
                  && beat.RanAt? && now - beat.at > 9000 * beat.intervalHours
                  && forall i :: 0 <= i < |s.notes| && s.notes[i].source == SchedulerDown ==> s.notes[i].isRead)
            && (t.notes == s.notes || t.notes == s.notes + [Notification(SchedulerDown, false)])
  {
    NoneUnread(s.notes);
    assert |s.notes + [Notification(SchedulerDown, false)]| != |s.notes|;
  }

  // ---------------------------------------------------------------- a backlog drains

  /** The pending rows of r's kind that may be handled before r. */
  function Ahead(s: State, r: nat): set<nat>
    requires r in s.rows
  {
    set id | id in s.rows && Pending(s, s.rows[r].kind, id) && id != r && s.rows[id].time <= s.rows[r].time
  }

  /** A failure that queues ahead of the rows of its kind stamped then or later. */
  predicate Overtakes(e: Event, kind: Kind, time: int) {
    (e.NewFailure? || e.FailsAgain?) && e.kind == kind && e.time <= time
  }

  function Early(events: seq<Event>, kind: Kind, time: int): nat {
    if events == [] then 0 else (if Overtakes(events[0], kind, time) then 1 else 0) + Early(events[1..], kind, time)
  }

  function Ticks(events: seq<Event>, kind: Kind): nat {
    if events == [] then 0
    else (if events[0].Check? && events[0].kind == kind then 1 else 0) + Ticks(events[1..], kind)
  }

  /** A batch that leaves a pending row behind is full, and all of it was ahead of that row. */
  lemma LeftBehind(s: State, r: nat, batch: seq<nat>)
    requires r in s.rows && Pending(s, s.rows[r].kind, r) && Selected(s, s.rows[r].kind, batch) && r !in batch
    ensures |batch| == MAX_ALERTS
    ensures forall id :: id in batch ==> id in Ahead(s, r)
  {
    var kind := s.rows[r].kind;
    var handled := set id | id in batch;
    DistinctCount(batch);
    forall id | id in batch ensures id in Ahead(s, r) {
      var i :| 0 <= i < |batch| && batch[i] == id;
      assert Pending(s, kind, batch[i]);
    }
    SubsetSize(handled + {r}, PendingRows(s, kind));
  }

  lemma CheckShrinksAhead(s: State, r: nat, batch: seq<nat>)
    requires r in s.rows && Pending(s, s.rows[r].kind, r) && Selected(s, s.rows[r].kind, batch) && r !in batch
    requires forall id :: id in batch ==> id in s.rows
    ensures var t := AlertAll(s, batch);
            && r in t.rows && t.rows[r] == s.rows[r]
            && |Ahead(t, r)| + MAX_ALERTS == |Ahead(s, r)|
  {
    LeftBehind(s, r, batch);
    DistinctCount(batch);
    assert Distinct(batch);
    hide Selected;
    AlertAllIs(s, batch);
    var handled := set id | id in batch;
    assert Ahead(AlertAll(s, batch), r) == Ahead(s, r) - handled;
  }

  /** Any other step lets at most one row overtake r. */
  lemma OtherStepAhead(s: State, r: nat, e: Event)
    requires r in s.rows && s.rows[r].failed && Enabled(s, e)
    requires e.Check? ==> e.kind != s.rows[r].kind
    requires e != LeavesFailed(r)
    ensures var t := Apply(s, e);
            && r in t.rows && t.rows[r] == s.rows[r]
            && |Ahead(t, r)| <= |Ahead(s, r)| + if Overtakes(e, s.rows[r].kind, s.rows[r].time) then 1 else 0
  {
    match e
    case Check(kind, batch) =>
      OtherCheckAhead(s, r, kind, batch);
    case NewFailure(id, kind, time) =>
      RowStepAhead(s, r, id, Row(kind, time, true, false, false));
    case LeavesFailed(id) =>
      RowStepAhead(s, r, id, s.rows[id].(failed := false));
    case FailsAgain(id, kind, time) =>
      RowStepAhead(s, r, id, s.rows[id].(failed := true, time := time));
    case _ =>
      SameAhead(s, Apply(s, e), r);
  }

  lemma SameAhead(s: State, t: State, r: nat)
    requires r in s.rows && s.rows == t.rows
    ensures Ahead(s, r) == Ahead(t, r)
  {
  }

  lemma RowStepAhead(s: State, r: nat, id: nat, row: Row)
    requires r in s.rows && id != r
    ensures var t := s.(rows := s.rows[id := row]);
            |Ahead(t, r)| <= |Ahead(s, r)|
                             + if row.kind == s.rows[r].kind && row.failed && row.time <= s.rows[r].time then 1 else 0
  {
    var t := s.(rows := s.rows[id := row]);
    SubsetSize(Ahead(t, r), Ahead(s, r) + {id});
    if !(row.kind == s.rows[r].kind && row.failed && row.time <= s.rows[r].time) {
      SubsetSize(Ahead(t, r), Ahead(s, r));
    }
  }

  lemma OtherCheckAhead(s: State, r: nat, kind: Kind, batch: seq<nat>)
    requires r in s.rows && kind != s.rows[r].kind && Selected(s, kind, batch)
    requires forall id :: id in batch ==> id in s.rows
    ensures var t := AlertAll(s, batch);
            r in t.rows && t.rows[r] == s.rows[r] && Ahead(t, r) == Ahead(s, r)
  {
    SelectedRows(s, kind, batch);
    assert Distinct(batch);
    hide Selected, CountFor, CountUnreadDown, AlertAll;
    AlertAllIs(s, batch);
  }

  /**
   A backlog drains in order: a pending row is alerted once ((k + e) div 100) + 1 checks of its kind have committed,
   where k rows are ahead of it and e failures of its kind with an earlier or equal stamp arrive meanwhile, unless it
   leaves the failed status first.
   */
  lemma {:induction false} BacklogDrains(s: State, r: nat, events: seq<Event>)
    requires ValidRun(s, events) && r in s.rows && s.rows[r].failed
    requires var row := s.rows[r];
             Ticks(events, row.kind) >= (|Ahead(s, r)| + Early(events, row.kind, row.time)) / 100 + 1
             || row.alerted
    ensures LeavesFailed(r) in events || (r in After(s, events).rows && After(s, events).rows[r].alerted)
    decreases |events|
  {
    hide Ahead, Apply, Enabled, Overtakes;
    if s.rows[r].alerted {
      AlertedStays(s, r, events);
    } else {
      var e := events[0];
      if e == LeavesFailed(r) {
        assert events[0] in events;
        return;
      }
      if e.Check? && e.kind == s.rows[r].kind {
        OneCheck(s, r, e);
      } else {
        OtherStepAhead(s, r, e);
      }
      BacklogDrains(Apply(s, e), r, events[1..]);
    }
  }

  lemma OneCheck(s: State, r: nat, e: Event)
    requires r in s.rows && Pending(s, s.rows[r].kind, r) && Enabled(s, e) && e.Check? && e.kind == s.rows[r].kind
    ensures var t := Apply(s, e);
            && r in t.rows && t.rows[r].kind == s.rows[r].kind && t.rows[r].time == s.rows[r].time && t.rows[r].failed
            && (t.rows[r].alerted || |Ahead(t, r)| + MAX_ALERTS == |Ahead(s, r)|)
            && !Overtakes(e, s.rows[r].kind, s.rows[r].time)
  {
    SelectedRows(s, e.kind, e.batch);
    AlertAllIs(s, e.batch);
    if r !in e.batch {
      CheckShrinksAhead(s, r, e.batch);
    }
  }

  // ---------------------------------------------------------------- one alert a row, not one a failure

  lemma {:induction false} PremarkedStays(s: State, r: nat, events: seq<Event>)
    requires ValidRun(s, events) && r in s.rows
    ensures r in After(s, events).rows && After(s, events).rows[r].premarked == s.rows[r].premarked
    decreases |events|
  {
    if events != [] {
      if events[0].Check? { AlertAllIs(s, events[0].batch); }
      PremarkedStays(Apply(s, events[0]), r, events[1..]);
    }
  }

  /**
   Exactly when a repeated failure is alerted: once the checks it is due have committed, a row that failed again and
   stayed failed has one more notification if and only if it had never been flagged before.
   */
  lemma FailsAgainAlertedIff(s: State, r: nat, time: int, events: seq<Event>)
    requires Inv(s) && r in s.rows && !s.rows[r].failed
    requires var t := Apply(s, FailsAgain(r, s.rows[r].kind, time));
             && ValidRun(t, events) && LeavesFailed(r) !in events
             && Ticks(events, s.rows[r].kind)
                >= (|Ahead(t, r)| + Early(events, s.rows[r].kind, time)) / 100 + 1
    ensures var t := Apply(s, FailsAgain(r, s.rows[r].kind, time));
            && (CountFor(After(t, events).notes, r) == CountFor(s.notes, r) + 1 <==> !s.rows[r].alerted)
            && (CountFor(After(t, events).notes, r) == CountFor(s.notes, r) <==> s.rows[r].alerted)
  {
    hide Ahead, CountFor, ValidRun, After, Ticks, Early, CountUnreadDown;
    var again := FailsAgain(r, s.rows[r].kind, time);
    var t := Apply(s, again);
    StepKeepsInv(s, again);
    if s.rows[r].alerted {
      SecondFailureIsSilent(t, r, events);
    } else {
      BacklogDrains(t, r, events);
      ExactlyOnceOverRuns(t, events);
      PremarkedStays(t, r, events);
    }
  }

  lemma OneEvent(s: State, e: Event, rest: seq<Event>)
    requires Enabled(s, e) && ValidRun(Apply(s, e), rest)
    ensures ValidRun(s, [e] + rest) && After(s, [e] + rest) == After(Apply(s, e), rest)
  {
    hide Enabled, Apply;
    assert ([e] + rest)[1..] == rest;
  }

  /** A push that fails, is alerted, is retried and fails again: the next check finds nothing to alert. */
  lemma RetriedPushIsSilent(r: nat, first: int, second: int)
    ensures var events := [NewFailure(r, Push, first), Check(Push, [r]), LeavesFailed(r), FailsAgain(r, Push, second),
                           Check(Push, [])];
            && ValidRun(State(map[], []), events)
            && After(State(map[], []), events)
               == State(map[r := Row(Push, second, true, true, false)], [Notification(Failed(r), false)])
  {
    hide Enabled, Apply;
    var e1, e2, e3, e4, e5 := NewFailure(r, Push, first), Check(Push, [r]), LeavesFailed(r),
                              FailsAgain(r, Push, second), Check(Push, []);
    var s0 := State(map[], []);
    var s1, s2, s3, s4 := RetriedPush(r, first, second);
    OneEvent(s4, e5, []);
    OneEvent(s3, e4, [e5] + []);
    OneEvent(s2, e3, [e4] + ([e5] + []));
    OneEvent(s1, e2, [e3] + ([e4] + ([e5] + [])));
    OneEvent(s0, e1, [e2] + ([e3] + ([e4] + ([e5] + []))));
    assert [e1] + ([e2] + ([e3] + ([e4] + ([e5] + [])))) == [e1, e2, e3, e4, e5];
  }

  /** The states of that run. */
  lemma RetriedPush(r: nat, first: int, second: int) returns (s1: State, s2: State, s3: State, s4: State)
    ensures Enabled(State(map[], []), NewFailure(r, Push, first))
    ensures s1 == Apply(State(map[], []), NewFailure(r, Push, first))
    ensures Enabled(s1, Check(Push, [r])) && s2 == Apply(s1, Check(Push, [r]))
    ensures Enabled(s2, LeavesFailed(r)) && s3 == Apply(s2, LeavesFailed(r))
    ensures Enabled(s3, FailsAgain(r, Push, second)) && s4 == Apply(s3, FailsAgain(r, Push, second))
    ensures Enabled(s4, Check(Push, [])) && Apply(s4, Check(Push, [])) == s4
    ensures s4 == State(map[r := Row(Push, second, true, true, false)], [Notification(Failed(r), false)])
  {
    s1 := State(map[r := Row(Push, first, true, false, false)], []);
    s2 := State(map[r := Row(Push, first, true, true, false)], [Notification(Failed(r), false)]);
    s3 := s2.(rows := map[r := Row(Push, first, false, true, false)]);
    s4 := s2.(rows := map[r := Row(Push, second, true, true, false)]);
    OldestAlone(s1, r);
    NothingPending(s4);
    AlertOne(s1, r);
    hide Selected, AlertAll;
  }

  lemma AlertOne(s: State, id: nat)
    requires id in s.rows
    ensures AlertAll(s, [id]) == Alert(s, id)
  {
    assert Init([id]) == [];
  }

  lemma OldestAlone(s: State, r: nat)
    requires s.rows.Keys == {r} && Pending(s, Push, r)
    ensures Selected(s, Push, [r])
  {
    assert PendingRows(s, Push) == {r};
  }

  lemma NothingPending(s: State)
    requires forall id :: id in s.rows ==> s.rows[id].alerted
    ensures Selected(s, Push, [])
  {
    assert PendingRows(s, Push) == {};
  }
}
