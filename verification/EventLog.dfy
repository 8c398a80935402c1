/**
 The `events` table of the coordinator store as a sequence of rows in arrival
 (rowid) order: how records become rows, what an append and the version-2
 migration delete, and what readers see.
 */
module EventLog {
  import opened Wrappers
  import opened Text

  /** `CoordinatorEventRecord`; `body` stands for epoch, detail, msg, payload and extra members. */
  datatype EventRecord = EventRecord(
    schemaVersion: string, eventId: string, runId: Option<string>, claimId: Option<string>,
    seqNo: int, ts: string, source: string, taskId: Option<string>, eventType: string,
    phase: Option<string>, status: string, body: string)

  /** `EventMutation`: the event a task mutation carries along. */
  datatype EventMutation = EventMutation(
    eventId: Option<string>, runId: Option<string>, seqNo: Option<int>, ts: Option<string>,
    source: string, taskId: string, eventType: string, phase: string, status: string, body: string)

  /** What the environment supplies to one append: the clock and the run id to fall back on. */
  datatype Stamp = Stamp(now: string, nanos: int, runId: string)

  /** A row: the columns that queries use, and `raw_json` as the record it encodes. */
  datatype EventRow = EventRow(
    eventId: string, seqNo: int, taskId: Option<string>, eventType: string, record: EventRecord)

  const HEARTBEAT_EVENT_TYPES: set<string> := {"heartbeat", "coordinator_heartbeat"}
  const EVENT_SCHEMA_VERSION := "1"

  predicate IsHeartbeat(row: EventRow) { row.eventType in HEARTBEAT_EVENT_TYPES }

  /** `task_id IS ?1 AND event_type = ?2`: a missing task is a group of its own. */
  predicate SameGroup(a: EventRow, b: EventRow) { a.taskId == b.taskId && a.eventType == b.eventType }

  function NonBlank(s: Option<string>, default: string): string
  {
    if s.Some? && !Blank(s.value) then s.value else default
  }

  function GeneratedId(eventType: string, task: string, seqNo: int): string
  {
    "evt-" + eventType + "-" + task + "-" + Decimal(seqNo)
  }

  /** The row `append_event_record_in_tx` inserts. */
  function RecordRow(event: EventRecord, stamp: Stamp): EventRow
  {
    var seqNo := if event.seqNo == 0 then stamp.nanos else event.seqNo;
    var id := if Blank(event.eventId) then GeneratedId(event.eventType, event.taskId.GetOr(""), seqNo)
        else event.eventId;
    var raw := event.(
      schemaVersion := if Blank(event.schemaVersion) then EVENT_SCHEMA_VERSION else event.schemaVersion,
      eventId := id,
      runId := Some(NonBlank(event.runId, stamp.runId)),
      seqNo := seqNo,
      ts := if Blank(event.ts) then stamp.now else event.ts);
    EventRow(id, seqNo, raw.taskId, raw.eventType, raw)
  }

  /** The row `append_event_in_tx` inserts; its JSON carries no claim id. */
  function MutationRow(event: EventMutation, stamp: Stamp): EventRow
  {
    var seqNo := event.seqNo.GetOr(stamp.nanos);
    var id := NonBlank(event.eventId, GeneratedId(event.eventType, event.taskId, seqNo));
    EventRow(id, seqNo, Some(event.taskId), event.eventType,
             EventRecord("1", id, Some(NonBlank(event.runId, stamp.runId)), None, seqNo,
                         event.ts.GetOr(stamp.now), event.source, Some(event.taskId), event.eventType,
                         Some(event.phase), event.status, event.body))
  }

  /** The row `save_snapshot` inserts for the event at index `idx`: columns are filled in, the JSON is not. */
  function SnapshotRow(event: EventRecord, idx: nat): EventRow
  {
    EventRow(if event.eventId == "" then "event-" + Decimal(idx + 1) else event.eventId,
             if event.seqNo == 0 then idx + 1 else event.seqNo,
             Some(event.taskId.GetOr("")), event.eventType, event)
  }

  /** An appended row agrees with its JSON, keeps what the record says, and fills in only what it leaves blank. */
  lemma RecordRowSays(event: EventRecord, stamp: Stamp)
    ensures var row := RecordRow(event, stamp);
            && row.record.eventId == row.eventId && row.record.seqNo == row.seqNo
            && row.record.taskId == row.taskId && row.record.eventType == row.eventType
            && row.record.(schemaVersion := event.schemaVersion, eventId := event.eventId, runId := event.runId,
                           seqNo := event.seqNo, ts := event.ts) == event
            && (!Blank(event.eventId) ==> row.eventId == event.eventId)
            && (event.seqNo != 0 ==> row.seqNo == event.seqNo)
            && (event.runId.Some? && !Blank(event.runId.value) ==> row.record.runId == event.runId)
            && (!Blank(event.ts) ==> row.record.ts == event.ts)
  {
  }

  /** What is blank is filled in: from the clock and the run, and the id from type, task and number. */
  lemma BlanksAreFilled(event: EventRecord, stamp: Stamp)
    ensures var row := RecordRow(event, stamp);
            && row.seqNo == (if event.seqNo != 0 then event.seqNo else stamp.nanos)
            && (Blank(event.eventId) ==>
                  row.eventId == "evt-" + event.eventType + "-"
                    + (if event.taskId.Some? then event.taskId.value else "") + "-" + Decimal(row.seqNo))
            && row.record.schemaVersion == (if !Blank(event.schemaVersion) then event.schemaVersion else "1")
            && (event.runId.None? || Blank(event.runId.value) ==> row.record.runId == Some(stamp.runId))
            && (Blank(event.ts) ==> row.record.ts == stamp.now)
  {
  }

  /** The same for an event that a mutation carries, which may leave its number open. */
  lemma CarriedBlanksAreFilled(event: EventMutation, stamp: Stamp)
    ensures var row := MutationRow(event, stamp);
            && (event.seqNo.None? ==> row.seqNo == stamp.nanos) && row.record.schemaVersion == "1"
            && (event.eventId.None? || Blank(event.eventId.value) ==>
                  row.eventId == "evt-" + event.eventType + "-" + event.taskId + "-" + Decimal(row.seqNo))
            && (event.runId.None? || Blank(event.runId.value) ==> row.record.runId == Some(stamp.runId))
            && (event.runId.Some? && !Blank(event.runId.value) ==> row.record.runId == event.runId)
            && (event.ts.None? ==> row.record.ts == stamp.now)
  {
  }

  /** Two events of one type and task that are filled in get different ids if their numbers differ. */
  lemma FilledIdsDiffer(eventType: string, task: string, m: nat, n: nat)
    ensures GeneratedId(eventType, task, m) == GeneratedId(eventType, task, n) ==> m == n
  {
    var head := "evt-" + eventType + "-" + task + "-";
    assert GeneratedId(eventType, task, m)[|head|..] == Decimal(m);
    assert GeneratedId(eventType, task, n)[|head|..] == Decimal(n);
    DecimalIsInjective(m, n);
  }

  /** So does the row of an event that a mutation carries; it names no claim. */
  lemma MutationRowSays(event: EventMutation, stamp: Stamp)
    ensures var row := MutationRow(event, stamp);
            && row.record.eventId == row.eventId && row.record.seqNo == row.seqNo
            && row.taskId == Some(event.taskId) && row.record.taskId == row.taskId
            && row.eventType == event.eventType && row.record.eventType == row.eventType
            && row.record.source == event.source && row.record.phase == Some(event.phase)
            && row.record.status == event.status
            && row.record.body == event.body && row.record.claimId.None?
            && (event.eventId.Some? && !Blank(event.eventId.value) ==> row.eventId == event.eventId.value)
            && (event.seqNo.Some? ==> row.seqNo == event.seqNo.value)
            && (event.ts.Some? ==> row.record.ts == event.ts.value)
  {
  }

  // ---- what the table holds ----------------------------------------------

  predicate HasId(log: seq<EventRow>, id: string) { exists i | 0 <= i < |log| :: log[i].eventId == id }

  /** `event_id` is the primary key. */
  predicate DistinctIds(log: seq<EventRow>)
  {
    forall i, j | 0 <= i < j < |log| :: log[i].eventId != log[j].eventId
  }

  /** Prune: `DELETE ... WHERE task_id IS ?1 AND event_type = ?2 AND rowid < ?3` and no cursor points there. */
  function Pruned(older: seq<EventRow>, newest: EventRow, targets: set<string>): seq<EventRow>
  {
    if older == [] then [] else
      (if SameGroup(older[0], newest) && older[0].eventId !in targets then [] else [older[0]])
      + Pruned(older[1..], newest, targets)
  }

  /** `INSERT OR IGNORE`, then `prune_superseded_heartbeats`. */
  function Append(log: seq<EventRow>, row: EventRow, targets: set<string>): seq<EventRow>
  {
    if HasId(log, row.eventId) then log
    else (if IsHeartbeat(row) then Pruned(log, row, targets) else log) + [row]
  }

  function AppendAll(log: seq<EventRow>, rows: seq<EventRow>, targets: set<string>): seq<EventRow>
  {
    if rows == [] then log else
      Append(AppendAll(log, rows[..|rows| - 1], targets), rows[|rows| - 1], targets)
  }

  /** `INSERT OR IGNORE` alone, as `save_snapshot` does it. */
  function Insert(log: seq<EventRow>, row: EventRow): seq<EventRow>
  {
    if HasId(log, row.eventId) then log else log + [row]
  }

  function InsertAll(log: seq<EventRow>, rows: seq<EventRow>): seq<EventRow>
  {
    if rows == [] then log else Insert(InsertAll(log, rows[..|rows| - 1]), rows[|rows| - 1])
  }

  /** A heartbeat is superseded when a later row has the same task and type. */
  predicate Superseded(row: EventRow, later: seq<EventRow>)
  {
    IsHeartbeat(row) && exists j | 0 <= j < |later| :: SameGroup(row, later[j])
  }

  /** The version-2 migration: keep MAX(rowid) of each (task, type) group of heartbeats, and cursor targets. */
  function Migrated(log: seq<EventRow>, targets: set<string>): seq<EventRow>
  {
    if log == [] then [] else
      (if Superseded(log[0], log[1..]) && log[0].eventId !in targets then [] else [log[0]])
      + Migrated(log[1..], targets)
  }

  // ---- subsequences ------------------------------------------------------

  /** `part` is `log` with some rows left out. */
  predicate Subsequence(part: seq<EventRow>, log: seq<EventRow>)
    decreases |log|
  {
    part == [] ||
    (log != [] && ((part[0] == log[0] && Subsequence(part[1..], log[1..])) || Subsequence(part, log[1..])))
  }

  lemma {:induction false} SubsequenceMembers(part: seq<EventRow>, log: seq<EventRow>)
    requires Subsequence(part, log)
    ensures forall r | r in part :: r in log
    ensures DistinctIds(log) ==> DistinctIds(part)
    decreases |log|
  {
    if part != [] {
      assert log == [log[0]] + log[1..] && part == [part[0]] + part[1..];
      assert DistinctIds(log) ==> DistinctIds(log[1..]);
      if part[0] == log[0] && Subsequence(part[1..], log[1..]) {
        SubsequenceMembers(part[1..], log[1..]);
        forall j | DistinctIds(log) && 0 < j < |part| ensures part[0].eventId != part[j].eventId {
          assert part[j] == part[1..][j - 1];
          assert part[j] in log[1..];
        }
      } else {
        SubsequenceMembers(part, log[1..]);
      }
    }
  }

  lemma SubsequenceIds(part: seq<EventRow>, log: seq<EventRow>, id: string)
    requires Subsequence(part, log) && !HasId(log, id)
    ensures !HasId(part, id)
  {
    SubsequenceMembers(part, log);
    forall i | 0 <= i < |part| ensures part[i].eventId != id {
      assert part[i] in part;
    }
  }

  lemma SubsequenceCons(head: seq<EventRow>, x: EventRow, part: seq<EventRow>, log: seq<EventRow>)
    requires Subsequence(part, log) && (head == [] || head == [x])
    ensures Subsequence(head + part, [x] + log)
  {
    assert ([x] + log)[1..] == log;
    if head == [] {
      assert head + part == part;
    } else {
      assert (head + part)[1..] == part;
    }
  }

  lemma {:induction false} SubsequenceRefl(log: seq<EventRow>)
    ensures Subsequence(log, log)
  {
    if log != [] { SubsequenceRefl(log[1..]); }
  }

  // ---- pruning row by row is the migration -------------------------------

  /** A deletion leaves a subsequence holding exactly the rows its WHERE clause spares. */
  lemma {:induction false} PrunedRows(older: seq<EventRow>, newest: EventRow, targets: set<string>)
    ensures Subsequence(Pruned(older, newest, targets), older)
    ensures forall r :: r in Pruned(older, newest, targets) <==>
                        r in older && !(SameGroup(r, newest) && r.eventId !in targets)
  {
    if older != [] {
      PrunedRows(older[1..], newest, targets);
      var head := if SameGroup(older[0], newest) && older[0].eventId !in targets then [] else [older[0]];
      SubsequenceCons(head, older[0], Pruned(older[1..], newest, targets), older[1..]);
      assert older == [older[0]] + older[1..];
    }
  }

  lemma {:induction false} PrunedConcat(a: seq<EventRow>, b: seq<EventRow>, newest: EventRow, targets: set<string>)
    ensures Pruned(a + b, newest, targets) == Pruned(a, newest, targets) + Pruned(b, newest, targets)
  {
    if a == [] {
      assert a + b == b;
    } else {
      assert (a + b)[1..] == a[1..] + b;
      PrunedConcat(a[1..], b, newest, targets);
    }
  }

  lemma {:induction false} MigratedRows(log: seq<EventRow>, targets: set<string>)
    ensures Subsequence(Migrated(log, targets), log)
  {
    if log != [] {
      MigratedRows(log[1..], targets);
      var head := if Superseded(log[0], log[1..]) && log[0].eventId !in targets then [] else [log[0]];
      SubsequenceCons(head, log[0], Migrated(log[1..], targets), log[1..]);
      assert log == [log[0]] + log[1..];
    }
  }

  lemma SupersededSnoc(row: EventRow, later: seq<EventRow>, e: EventRow)
    ensures Superseded(row, later + [e]) <==> Superseded(row, later) || (IsHeartbeat(row) && SameGroup(row, e))
  {
    var all := later + [e];
    assert all[|later|] == e;
    assert forall j | 0 <= j < |later| :: all[j] == later[j];
  }

  /** What the migration leaves of the first row of a log. */
  function MigratedHead(x: EventRow, rest: seq<EventRow>, targets: set<string>): seq<EventRow>
  {
    if Superseded(x, rest) && x.eventId !in targets then [] else [x]
  }

  lemma MigratedCons(x: EventRow, rest: seq<EventRow>, targets: set<string>)
    ensures Migrated([x] + rest, targets) == MigratedHead(x, rest, targets) + Migrated(rest, targets)
  {
    assert ([x] + rest)[1..] == rest;
  }

  lemma MigratedHeadSnoc(x: EventRow, rest: seq<EventRow>, e: EventRow, targets: set<string>)
    ensures MigratedHead(x, rest + [e], targets)
         == if IsHeartbeat(e) then Pruned(MigratedHead(x, rest, targets), e, targets)
             else MigratedHead(x, rest, targets)
  {
    SupersededSnoc(x, rest, e);
    assert [x][1..] == [];
    hide Superseded;
  }

  /** One more row changes the migrated log exactly as an append does. */
  lemma {:induction false} MigratedSnoc(log: seq<EventRow>, e: EventRow, targets: set<string>)
    ensures Migrated(log + [e], targets)
         == (if IsHeartbeat(e) then Pruned(Migrated(log, targets), e, targets) else Migrated(log, targets)) + [e]
  {
    if log == [] {
      assert log + [e] == [e];
      assert [e][1..] == [];
    } else {
      hide Migrated, MigratedHead, Pruned, IsHeartbeat;
      var x, rest := log[0], log[1..];
      assert log == [x] + rest && log + [e] == [x] + (rest + [e]);
      MigratedCons(x, rest, targets);
      MigratedCons(x, rest + [e], targets);
      MigratedSnoc(rest, e, targets);
      MigratedHeadSnoc(x, rest, e, targets);
      PrunedConcat(MigratedHead(x, rest, targets), Migrated(rest, targets), e, targets);
    }
  }

  lemma AppendAllRows(log: seq<EventRow>, rows: seq<EventRow>, targets: set<string>)
    requires DistinctIds(log + rows)
    ensures DistinctIds(log) && DistinctIds(rows)
    ensures rows != [] ==>
              DistinctIds(log + rows[..|rows| - 1]) && !HasId(log + rows[..|rows| - 1], rows[|rows| - 1].eventId)
  {
    var all := log + rows;
    assert forall i | 0 <= i < |log| :: all[i] == log[i];
    assert forall i | 0 <= i < |rows| :: all[|log| + i] == rows[i];
    if rows != [] {
      var front := log + rows[..|rows| - 1];
      assert forall i | 0 <= i < |front| :: front[i] == all[i];
    }
  }

  /**
   Appending rows one at a time, each append pruning, to a log that is already
   migrated gives what inserting them all and migrating once gives. With an
   empty first log: the incremental pruning is the batch pruning.
   */
  lemma {:induction false} IncrementalPruningIsMigration(log: seq<EventRow>, rows: seq<EventRow>, targets: set<string>)
    requires DistinctIds(log + rows)
    ensures AppendAll(Migrated(log, targets), rows, targets) == Migrated(log + rows, targets)
  {
    if rows == [] {
      assert log + rows == log;
    } else {
      var front, e := rows[..|rows| - 1], rows[|rows| - 1];
      AppendAllRows(log, rows, targets);
      IncrementalPruningIsMigration(log, front, targets);
      MigratedSnoc(log + front, e, targets);
      assert log + rows == (log + front) + [e];
      MigratedRows(log + front, targets);
      SubsequenceIds(Migrated(log + front, targets), log + front, e.eventId);
    }
  }

  /** The rule both ways of pruning implement, by position. */
  predicate KeptAt(log: seq<EventRow>, i: nat, targets: set<string>)
    requires i < |log|
  {
    !IsHeartbeat(log[i]) || log[i].eventId in targets || forall j | i < j < |log| :: !SameGroup(log[i], log[j])
  }

  /** The migration keeps a row iff it is no heartbeat, or a cursor target, or the last arrival of its group. */
  lemma {:induction false} MigratedKeepsExactly(log: seq<EventRow>, targets: set<string>, i: nat)
    requires DistinctIds(log) && i < |log|
    ensures log[i] in Migrated(log, targets) <==> KeptAt(log, i, targets)
  {
    hide Migrated, MigratedHead, KeptAt, DistinctIds, Subsequence, IsHeartbeat, SameGroup;
    var x, rest := log[0], log[1..];
    assert log == [x] + rest;
    MigratedCons(x, rest, targets);
    MigratedRows(rest, targets);
    SubsequenceMembers(Migrated(rest, targets), rest);
    HeadIsNew(log);
    HeadOrNothing(x, rest, targets);
    if i == 0 {
      KeptFirst(x, rest, targets);
    } else {
      assert log[i] == rest[i - 1] && log[i] in rest;
      KeptLater(x, rest, targets, i - 1);
      MigratedKeepsExactly(rest, targets, i - 1);
    }
  }

  lemma HeadIsNew(log: seq<EventRow>)
    requires DistinctIds(log) && log != []
    ensures log[0] !in log[1..] && DistinctIds(log[1..])
  {
  }

  lemma HeadOrNothing(x: EventRow, rest: seq<EventRow>, targets: set<string>)
    ensures MigratedHead(x, rest, targets) in {[], [x]}
  {
  }

  lemma KeptFirst(x: EventRow, rest: seq<EventRow>, targets: set<string>)
    ensures KeptAt([x] + rest, 0, targets) <==> MigratedHead(x, rest, targets) == [x]
  {
    var log := [x] + rest;
    assert forall j | 0 <= j < |rest| :: log[j + 1] == rest[j];
    if j :| 0 <= j < |rest| && SameGroup(x, rest[j]) { assert SameGroup(log[0], log[j + 1]); }
  }

  lemma KeptLater(x: EventRow, rest: seq<EventRow>, targets: set<string>, i: nat)
    requires i < |rest|
    ensures KeptAt([x] + rest, i + 1, targets) <==> KeptAt(rest, i, targets)
  {
    var log := [x] + rest;
    assert forall j | 0 <= j < |rest| :: log[j + 1] == rest[j];
    if j :| i < j < |rest| && SameGroup(rest[i], rest[j]) { assert SameGroup(log[i + 1], log[j + 1]); }
  }

  lemma AppendedIsMigrated(rows: seq<EventRow>, targets: set<string>)
    requires DistinctIds(rows)
    ensures AppendAll([], rows, targets) == Migrated(rows, targets)
  {
    hide AppendAll, DistinctIds;
    assert [] + rows == rows;
    assert Migrated([], targets) == [];
    hide Migrated;
    IncrementalPruningIsMigration([], rows, targets);
  }

  /** The rows an append-only history leaves, stated by position and not by pruning. */
  lemma AppendedLogKeepsExactly(rows: seq<EventRow>, targets: set<string>, i: nat)
    requires DistinctIds(rows) && i < |rows|
    ensures Subsequence(AppendAll([], rows, targets), rows)
    ensures rows[i] in AppendAll([], rows, targets) <==> KeptAt(rows, i, targets)
  {
    hide Migrated, AppendAll, KeptAt, DistinctIds, Subsequence, IsHeartbeat, SameGroup;
    AppendedIsMigrated(rows, targets);
    MigratedRows(rows, targets);
    MigratedKeepsExactly(rows, targets, i);
  }

  /** Nothing a migrated log holds is superseded, so migrating again changes nothing. */
  lemma {:induction false} MigratedTwice(log: seq<EventRow>, targets: set<string>)
    ensures Migrated(Migrated(log, targets), targets) == Migrated(log, targets)
  {
    if log != [] {
      var x, rest := log[0], Migrated(log[1..], targets);
      MigratedTwice(log[1..], targets);
      MigratedRows(log[1..], targets);
      SubsequenceMembers(rest, log[1..]);
      if Superseded(x, rest) {
        var j :| 0 <= j < |rest| && SameGroup(x, rest[j]);
        assert rest[j] in log[1..];
      }
      if !Superseded(x, log[1..]) || x.eventId in targets {
        assert ([x] + rest)[1..] == rest;
      } else {
        assert [] + rest == rest;
      }
    }
  }

  // ---- readers -----------------------------------------------------------

  datatype EventQuery = EventQuery(taskId: Option<string>, eventType: Option<string>, skipHeartbeats: bool)

  const EVERY_EVENT := EventQuery(None, None, false)

  predicate Matches(row: EventRow, query: EventQuery)
  {
    && (query.taskId.Some? ==> row.taskId == query.taskId)
    && (query.eventType.Some? ==> row.eventType == query.eventType.value)
    && (query.skipHeartbeats ==> !IsHeartbeat(row))
  }

  function Selected(log: seq<EventRow>, query: EventQuery): seq<EventRow>
  {
    if log == [] then [] else (if Matches(log[0], query) then [log[0]] else []) + Selected(log[1..], query)
  }

  lemma {:induction false} SelectedConcat(a: seq<EventRow>, b: seq<EventRow>, query: EventQuery)
    ensures Selected(a + b, query) == Selected(a, query) + Selected(b, query)
  {
    if a == [] {
      assert a + b == b;
    } else {
      assert (a + b)[1..] == a[1..] + b;
      SelectedConcat(a[1..], b, query);
    }
  }

  lemma {:induction false} SelectedRows(log: seq<EventRow>, query: EventQuery)
    ensures Subsequence(Selected(log, query), log)
    ensures forall r :: r in Selected(log, query) <==> r in log && Matches(r, query)
  {
    if log != [] {
      SelectedRows(log[1..], query);
      SubsequenceCons(if Matches(log[0], query) then [log[0]] else [], log[0], Selected(log[1..], query), log[1..]);
      assert log == [log[0]] + log[1..];
    }
  }

  /**
   Which rows a filtered scan sees: those of the task and the type, if any is
   given, and no heartbeats if it skips them.
   */
  lemma SelectedIff(log: seq<EventRow>, query: EventQuery, row: EventRow)
    ensures row in Selected(log, query) <==>
            && row in log && query.taskId in {None, row.taskId} && query.eventType in {None, Some(row.eventType)}
            && (query.skipHeartbeats ==> row.eventType != "heartbeat" && row.eventType != "coordinator_heartbeat")
  {
    SelectedRows(log, query);
  }

  /** `(seq, event_id)` order; ids are unique, so it is total on a log. */
  predicate Precedes(a: EventRow, b: EventRow)
  {
    a.seqNo < b.seqNo || (a.seqNo == b.seqNo && StringLe(a.eventId, b.eventId))
  }

  lemma PrecedesTotal(a: EventRow, b: EventRow)
    ensures Precedes(a, b) || Precedes(b, a)
    ensures Precedes(a, b) && Precedes(b, a) ==> a.eventId == b.eventId
  {
    StringLeTotal(a.eventId, b.eventId);
    if Precedes(a, b) && Precedes(b, a) { StringLeAntisymmetric(a.eventId, b.eventId); }
  }

  lemma PrecedesTransitive(a: EventRow, b: EventRow, c: EventRow)
    requires Precedes(a, b) && Precedes(b, c)
    ensures Precedes(a, c)
  {
    if a.seqNo == b.seqNo == c.seqNo { StringLeTransitive(a.eventId, b.eventId, c.eventId); }
  }

  predicate OldestFirst(rows: seq<EventRow>)
  {
    forall i, j | 0 <= i < j < |rows| :: Precedes(rows[i], rows[j])
  }

  function Place(row: EventRow, sorted: seq<EventRow>): (r: seq<EventRow>)
    ensures multiset(r) == multiset(sorted) + multiset{row}
  {
    if sorted == [] then [row]
    else if Precedes(row, sorted[0]) then
      assert [row] + sorted == [row] + sorted;
      [row] + sorted
    else
      assert sorted == [sorted[0]] + sorted[1..];
      [sorted[0]] + Place(row, sorted[1..])
  }

  /** `ORDER BY seq ASC, event_id ASC`. */
  function Ascending(rows: seq<EventRow>): (r: seq<EventRow>)
    ensures multiset(r) == multiset(rows)
  {
    if rows == [] then [] else
      assert rows == [rows[0]] + rows[1..];
      Place(rows[0], Ascending(rows[1..]))
  }

  function PlaceNewest(row: EventRow, sorted: seq<EventRow>): seq<EventRow>
  {
    if sorted == [] then [row]
    else if Precedes(sorted[0], row) then [row] + sorted
    else [sorted[0]] + PlaceNewest(row, sorted[1..])
  }

  /** `ORDER BY seq DESC, event_id DESC`. */
  function Descending(rows: seq<EventRow>): seq<EventRow>
  {
    if rows == [] then [] else PlaceNewest(rows[0], Descending(rows[1..]))
  }

  lemma {:induction false} PlaceSorted(row: EventRow, sorted: seq<EventRow>)
    requires OldestFirst(sorted)
    ensures OldestFirst(Place(row, sorted))
  {
    if sorted != [] {
      PrecedesTotal(row, sorted[0]);
      if Precedes(row, sorted[0]) {
        forall j | 0 < j < |sorted| ensures Precedes(row, sorted[j]) { PrecedesTransitive(row, sorted[0], sorted[j]); }
      } else {
        var tail := Place(row, sorted[1..]);
        PlaceSorted(row, sorted[1..]);
        forall j | 0 <= j < |tail| ensures Precedes(sorted[0], tail[j]) {
          assert tail[j] in multiset(tail);
          assert tail[j] == row || tail[j] in sorted[1..];
        }
      }
    }
  }

  lemma {:induction false} AscendingSorted(rows: seq<EventRow>)
    ensures OldestFirst(Ascending(rows))
  {
    if rows != [] {
      AscendingSorted(rows[1..]);
      PlaceSorted(rows[0], Ascending(rows[1..]));
    }
  }

  lemma FirstIsUnique(a: seq<EventRow>, b: seq<EventRow>)
    requires OldestFirst(a) && OldestFirst(b) && multiset(a) == multiset(b) && DistinctIds(a) && a != [] && b != []
    ensures a[0] == b[0]
  {
    assert a[0] in multiset(b) && b[0] in multiset(a);
    var i :| 0 <= i < |b| && b[i] == a[0];
    var j :| 0 <= j < |a| && a[j] == b[0];
    PrecedesTotal(a[0], b[0]);
  }

  /** The order a query asks for determines its answer: rows with distinct ids sort in one way only. */
  lemma {:induction false} OldestFirstIsUnique(a: seq<EventRow>, b: seq<EventRow>)
    requires OldestFirst(a) && OldestFirst(b) && multiset(a) == multiset(b) && DistinctIds(a)
    ensures a == b
  {
    assert |multiset(a)| == |a| && |multiset(b)| == |b|;
    if a != [] {
      FirstIsUnique(a, b);
      assert a == [a[0]] + a[1..];
      assert b == [b[0]] + b[1..];
      assert multiset(a[1..]) == multiset(a) - multiset{a[0]} == multiset(b[1..]);
      hide Precedes;
      OldestFirstIsUnique(a[1..], b[1..]);
    }
  }

  function Reversed<T>(s: seq<T>): (r: seq<T>)
    ensures |r| == |s|
    ensures forall i | 0 <= i < |s| :: r[i] == s[|s| - 1 - i]
  {
    if s == [] then [] else Reversed(s[1..]) + [s[0]]
  }

  lemma {:induction false} PlaceNewestLast(row: EventRow, sorted: seq<EventRow>, last: EventRow)
    ensures Precedes(row, last) && row.eventId != last.eventId && (forall r | r in sorted :: !Precedes(r, row))
        ==> PlaceNewest(row, sorted + [last]) == sorted + [last, row]
    ensures Precedes(last, row) ==> PlaceNewest(row, sorted + [last]) == PlaceNewest(row, sorted) + [last]
  {
    PrecedesTotal(row, last);
    if sorted == [] {
      assert sorted + [last] == [last];
      assert [last][1..] == [];
    } else {
      assert (sorted + [last])[1..] == sorted[1..] + [last];
      PlaceNewestLast(row, sorted[1..], last);
      if Precedes(sorted[0], row) {
        assert sorted[0] in sorted;
      } else if Precedes(last, row) {
      } else {
        if forall r | r in sorted :: !Precedes(r, row) {
          assert forall r | r in sorted[1..] :: !Precedes(r, row);
          assert sorted + [last, row] == [sorted[0]] + (sorted[1..] + [last, row]);
        }
      }
    }
  }

  lemma {:induction false} PlaceReversed(row: EventRow, sorted: seq<EventRow>)
    requires OldestFirst(sorted) && forall r | r in sorted :: r.eventId != row.eventId
    ensures PlaceNewest(row, Reversed(sorted)) == Reversed(Place(row, sorted))
  {
    if sorted != [] {
      var h, t := sorted[0], sorted[1..];
      PrecedesTotal(row, h);
      PlaceNewestLast(row, Reversed(t), h);
      if Precedes(row, h) {
        forall r | r in Reversed(t) ensures !Precedes(r, row) {
          var i :| 0 <= i < |t| && Reversed(t)[i] == r;
          assert sorted[|t| - i] == r;
          PrecedesTransitive(row, h, r);
          PrecedesTotal(r, row);
        }
        assert ([row] + sorted)[1..] == sorted;
        assert Reversed(t) + [h] + [row] == Reversed(t) + [h, row];
      } else {
        PlaceReversed(row, t);
        assert ([h] + Place(row, t))[1..] == Place(row, t);
      }
    }
  }

  /** Newest first is oldest first read backwards. */
  lemma {:induction false} DescendingIsReversed(rows: seq<EventRow>)
    requires DistinctIds(rows)
    ensures Descending(rows) == Reversed(Ascending(rows))
  {
    if rows != [] {
      DescendingIsReversed(rows[1..]);
      AscendingSorted(rows[1..]);
      var sorted := Ascending(rows[1..]);
      forall r | r in sorted ensures r.eventId != rows[0].eventId {
        assert r in multiset(sorted);
        assert r in rows[1..];
      }
      PlaceReversed(rows[0], sorted);
    }
  }

  /** `scan_events_newest_first` with a visitor that never breaks. */
  function Scan(log: seq<EventRow>, query: EventQuery): seq<EventRow> { Descending(Selected(log, query)) }

  lemma {:induction false} PrunedUnseen(log: seq<EventRow>, newest: EventRow, targets: set<string>, query: EventQuery)
    requires IsHeartbeat(newest) && query.skipHeartbeats
    ensures Selected(Pruned(log, newest, targets), query) == Selected(log, query)
  {
    if log != [] {
      PrunedUnseen(log[1..], newest, targets, query);
      var kept := Pruned(log[1..], newest, targets);
      var head := if SameGroup(log[0], newest) && log[0].eventId !in targets then [] else [log[0]];
      SelectedConcat(head, kept, query);
      assert [log[0]][1..] == [];
    }
  }

  lemma {:induction false} MigratedUnseen(log: seq<EventRow>, targets: set<string>, query: EventQuery)
    requires query.skipHeartbeats
    ensures Selected(Migrated(log, targets), query) == Selected(log, query)
  {
    if log != [] {
      MigratedUnseen(log[1..], targets, query);
      var kept := Migrated(log[1..], targets);
      var head := if Superseded(log[0], log[1..]) && log[0].eventId !in targets then [] else [log[0]];
      SelectedConcat(head, kept, query);
      assert [log[0]][1..] == [];
    }
  }

  lemma {:induction false} PrunedKeepsEvents(log: seq<EventRow>, newest: EventRow, targets: set<string>)
    requires IsHeartbeat(newest)
    ensures forall r | r in log && (!IsHeartbeat(r) || r.eventId in targets) :: r in Pruned(log, newest, targets)
  {
    PrunedRows(log, newest, targets);
  }

  lemma {:induction false} MigratedKeepsEvents(log: seq<EventRow>, targets: set<string>)
    ensures forall r | r in log && (!IsHeartbeat(r) || r.eventId in targets) :: r in Migrated(log, targets)
  {
    if log != [] { MigratedKeepsEvents(log[1..], targets); }
  }
}
