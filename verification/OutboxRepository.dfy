/** The outbox repository: the methods that write `pending_notifications`, on
    rows with all their columns, and their tie to the step system. */
module OutboxRepository {

  import opened Sql
  import C = OutboxChannel
  import T = OutboxTable

  datatype Record = Record(
    discoveredListingId: nat,
    userId: Option<nat>,
    createdAt: int,
    status: C.Status,
    attemptCount: int,
    claimedAt: Option<int>,
    lastAttemptedAt: Option<int>,
    lastError: Option<C.ErrorText>,
    sentAt: Option<int>,
    pushStatus: C.Status,
    pushAttemptCount: int,
    pushClaimedAt: Option<int>,
    pushLastAttemptedAt: Option<int>,
    pushLastError: Option<C.ErrorText>,
    pushSentAt: Option<int>)
  {
    function Columns(kind: C.Kind): C.Columns {
      match kind
      case Telegram => C.Columns(status, attemptCount, claimedAt, lastAttemptedAt, lastError, sentAt)
      case Push => C.Columns(pushStatus, pushAttemptCount, pushClaimedAt, pushLastAttemptedAt, pushLastError, pushSentAt)
    }

    /** Same row but for the columns of one channel. */
    ghost predicate DiffersOnlyOn(other: Record, kind: C.Kind) {
      && discoveredListingId == other.discoveredListingId && userId == other.userId && createdAt == other.createdAt
      && (kind == C.Telegram ==> Columns(C.Push) == other.Columns(C.Push))
      && (kind == C.Push ==> Columns(C.Telegram) == other.Columns(C.Telegram))
    }
  }

  /** The table holds what the step system's state says it holds. */
  ghost predicate Represents(rows: map<nat, Record>, s: T.State) {
    && rows.Keys == s.rows.Keys
    && (forall id | id in rows :: RowRepresents(rows[id], s.rows[id]))
  }

  ghost predicate RowRepresents(record: Record, row: T.Row) {
    && record.createdAt == row.createdAt
    && record.Columns(C.Telegram) == row.telegram.columns
    && record.Columns(C.Push) == row.push.columns
  }

  /** The effect of one claim on the whole table. */
  ghost predicate ClaimedRows(before: map<nat, Record>, after: map<nat, Record>, kind: C.Kind, ids: set<nat>, now: int) {
    && after.Keys == before.Keys
    && (forall id | id in before && id !in ids :: after[id] == before[id])
    && (forall id | id in before && id in ids ::
          after[id].DiffersOnlyOn(before[id], kind) && after[id].Columns(kind) == C.Claimed(before[id].Columns(kind), now))
  }

  /** The effect of one completion on the whole table. */
  ghost predicate CompletedRow(
    before: map<nat, Record>, after: map<nat, Record>, kind: C.Kind, id: nat,
    now: int, success: bool, error: Option<C.ErrorText>, maxAttempts: int)
  {
    if id !in before then after == before
    else
      && after.Keys == before.Keys
      && (forall other | other in before && other != id :: after[other] == before[other])
      && after[id].DiffersOnlyOn(before[id], kind)
      && after[id].Columns(kind) == C.Completed(kind, before[id].Columns(kind), now, success, error, maxAttempts)
  }

  /** The claim was a fair `Begin` and `Commit` of the step system, and the
      table now holds the state they lead to. */
  ghost predicate ClaimStepsTaken(after: map<nat, Record>, s: T.State, w: nat, b: T.Batch, limit: nat) {
    && T.Enabled(s, T.Begin(w, b, limit), true)
    && Represents(after, T.Apply(T.Apply(s, T.Begin(w, b, limit)), T.Commit(b.kind, w)))
  }

  lemma ClaimRefinesRow(before: Record, after: Record, row: T.Row, b: T.Batch)
    requires RowRepresents(before, row)
    requires after.DiffersOnlyOn(before, b.kind) && after.Columns(b.kind) == C.Claimed(before.Columns(b.kind), b.now)
    ensures RowRepresents(after, T.ClaimRow(row, b))
  {
  }

  lemma ClaimRefinesSteps(before: map<nat, Record>, after: map<nat, Record>, s: T.State, w: nat, b: T.Batch, limit: nat)
    requires Represents(before, s) && w !in s.open && T.Claimable(s, b) && T.BestFirst(s, b, limit)
    requires ClaimedRows(before, after, b.kind, Elements(b.ids), b.now)
    ensures ClaimStepsTaken(after, s, w, b, limit)
  {
    hide T.Claimable, T.BestFirst, T.ClaimRow, RowRepresents;
    var t := T.Apply(T.Apply(s, T.Begin(w, b, limit)), T.Commit(b.kind, w));
    forall id | id in after
      ensures id in t.rows && RowRepresents(after[id], t.rows[id])
    {
      if id in b.ids {
        ClaimRefinesRow(before[id], after[id], s.rows[id], b);
      }
    }
  }

  /** `ids` are in claim order and before all of `rest`. */
  ghost predicate InClaimOrder(s: T.State, kind: C.Kind, ids: seq<nat>, rest: set<nat>) {
    && (forall p | 0 <= p < |ids| :: ids[p] in s.rows)
    && rest <= s.rows.Keys
    && (forall p, q | 0 <= p < q < |ids| :: !T.RanksBefore(s.rows[ids[q]], s.rows[ids[p]], kind))
    && (forall p, y | 0 <= p < |ids| && y in rest :: !T.RanksBefore(s.rows[y], s.rows[ids[p]], kind))
  }

  lemma AppendBest(s: T.State, kind: C.Kind, ids: seq<nat>, rest: set<nat>, best: nat)
    requires InClaimOrder(s, kind, ids, rest) && best in rest
    requires forall y | y in rest :: !T.RanksBefore(s.rows[y], s.rows[best], kind)
    ensures InClaimOrder(s, kind, ids + [best], rest - {best})
  {
  }

  lemma QueryIsAnswered(s: T.State, b: T.Batch, limit: nat, due: set<nat>, rest: set<nat>)
    requires forall id :: id in due <==> id in s.rows && !T.Locked(s, id) && T.Due(s.rows[id], b)
    requires Distinct(b.ids) && |b.ids| <= limit && due == Elements(b.ids) + rest
    requires rest != {} ==> |b.ids| == limit
    requires InClaimOrder(s, b.kind, b.ids, rest)
    ensures T.Claimable(s, b) && T.BestFirst(s, b, limit)
  {
    forall p | 0 <= p < |b.ids|
      ensures b.ids[p] in due
    {
      assert b.ids[p] in Elements(b.ids);
    }
    forall id | id in s.rows && id !in b.ids && T.Due(s.rows[id], b) && !T.Locked(s, id)
      ensures id in rest
    {
      assert id in due;
    }
  }

  lemma ClaimOneMore(
    before: map<nat, Record>, during: map<nat, Record>, kind: C.Kind, done: set<nat>, id: nat, row: Record, now: int)
    requires ClaimedRows(before, during, kind, done, now) && id in before && id !in done
    requires row.DiffersOnlyOn(before[id], kind) && row.Columns(kind) == C.Claimed(before[id].Columns(kind), now)
    ensures ClaimedRows(before, during[id := row], kind, done + {id}, now)
  {
  }

  /** A worker that reports the outcome of its own claim takes the `Complete`
      step of that claim, so the laws of the table's runs hold of this code. */
  lemma CompletionRefinesStep(
    before: map<nat, Record>, after: map<nat, Record>, s: T.State, kind: C.Kind, id: nat, i: nat,
    now: int, success: bool, error: Option<C.ErrorText>, maxAttempts: int)
    requires Represents(before, s) && CompletedRow(before, after, kind, id, now, success, error, maxAttempts)
    requires T.Enabled(s, T.Act(kind, id, C.Complete(i, now, maxAttempts)), false)
    requires id in s.rows ==>
               var outcome := s.rows[id].Channel(kind).attempts[i].outcome;
               if success then outcome == C.Accepted else error.Some? && outcome == C.Refused(error.value)
    ensures Represents(after, T.Apply(s, T.Act(kind, id, C.Complete(i, now, maxAttempts))))
  {
    var t := T.Apply(s, T.Act(kind, id, C.Complete(i, now, maxAttempts)));
    forall other | other in after && other != id
      ensures other in t.rows && RowRepresents(after[other], t.rows[other])
    {
      assert RowRepresents(before[other], s.rows[other]);
    }
    if id in before {
      assert RowRepresents(before[id], s.rows[id]);
      assert RowRepresents(after[id], t.rows[id]);
    }
  }

  /** The claim on the records. It takes due rows that nobody holds, no more than
      its limit. In what order: a row of the batch, against every row the
      query could have taken in its place, has never been attempted unless the
      other has, and within either group is no younger. Such a row is left out
      of the batch only when the batch is full. */
  ghost predicate TakesOldestFirst(rows: map<nat, Record>, locked: set<nat>, b: T.Batch, limit: nat)
    requires forall id | id in b.ids :: id in rows
  {
    && |b.ids| <= limit
    && (forall id | id in b.ids :: id !in locked && C.Eligible(b.kind, rows[id].Columns(b.kind), b.now, b.lease, b.retry))
    && forall other | other in rows && other !in locked && C.Eligible(b.kind, rows[other].Columns(b.kind), b.now, b.lease, b.retry) ::
      && (other !in b.ids ==> |b.ids| == limit)
      && (forall p | 0 <= p < |b.ids| && other !in b.ids[..p + 1] ::
            var taken, passed := rows[b.ids[p]], rows[other];
            if taken.Columns(b.kind).lastAttemptedAt.None? == passed.Columns(b.kind).lastAttemptedAt.None?
            then taken.createdAt <= passed.createdAt
            else taken.Columns(b.kind).lastAttemptedAt.None?)
  }

  lemma DueOnRecords(rows: map<nat, Record>, s: T.State, kind: C.Kind, now: int, lease: int, retry: int)
    requires Represents(rows, s)
    ensures forall ids: seq<nat>, id | id in rows ::
              C.Eligible(kind, rows[id].Columns(kind), now, lease, retry) <==> T.Due(s.rows[id], T.Batch(kind, now, lease, retry, ids))
  {
    forall id | id in rows
      ensures rows[id].Columns(kind) == s.rows[id].Channel(kind).columns
    {
      assert RowRepresents(rows[id], s.rows[id]);
    }
  }

  lemma BestFirstOnRecords(rows: map<nat, Record>, locked: set<nat>, s: T.State, b: T.Batch, limit: nat)
    requires Represents(rows, s) && (forall id | id in rows :: id in locked <==> T.Locked(s, id))
    requires T.Claimable(s, b) && T.BestFirst(s, b, limit)
    ensures forall id | id in b.ids :: id in rows && id !in locked
    ensures TakesOldestFirst(rows, locked, b, limit)
  {
  }

  class Repository {
    var rows: map<nat, Record>

    constructor ()
      ensures rows == map[] && Represents(rows, T.EMPTY)
    {
      rows := map[];
    }

    /** The claim query of either channel: the due, unlocked rows, best first,
        at most `limit` of them. Ties are left open, as the query leaves them. */
    method SelectDue(kind: C.Kind, now: int, limit: nat, lease: int, retry: int, locked: set<nat>, ghost s: T.State)
      returns (ids: seq<nat>)
      requires Represents(rows, s)
      requires forall id | id in rows :: id in locked <==> T.Locked(s, id)
      ensures var b := T.Batch(kind, now, lease, retry, ids); T.Claimable(s, b) && T.BestFirst(s, b, limit)
      ensures Distinct(ids) && forall id | id in ids :: id in rows && id !in locked
      ensures TakesOldestFirst(rows, locked, T.Batch(kind, now, lease, retry, ids), limit)
    {
      hide T.BestFirst, T.Claimable, TakesOldestFirst, T.RanksBefore, T.Due, T.Locked, C.Eligible, RowRepresents;
      DueOnRecords(rows, s, kind, now, lease, retry);
      var remaining := set id | id in rows && id !in locked && C.Eligible(kind, rows[id].Columns(kind), now, lease, retry);
      ghost var due := remaining;
      ids := [];
      while |ids| < limit && remaining != {}
        invariant |ids| <= limit && Distinct(ids)
        invariant due == Elements(ids) + remaining && Elements(ids) !! remaining
        invariant InClaimOrder(s, kind, ids, remaining)
        decreases remaining
      {
        var best := First(kind, remaining, s);
        AppendBest(s, kind, ids, remaining, best);
        assert best !in Elements(ids);
        ids := ids + [best];
        remaining := remaining - {best};
      }
      QueryIsAnswered(s, T.Batch(kind, now, lease, retry, ids), limit, due, remaining);
      BestFirstOnRecords(rows, locked, s, T.Batch(kind, now, lease, retry, ids), limit);
    }

    /** The first of some rows in claim order. */
    method First(kind: C.Kind, ids: set<nat>, ghost s: T.State) returns (best: nat)
      requires Represents(rows, s) && ids != {} && ids <= rows.Keys
      ensures best in ids && forall y | y in ids :: !T.RanksBefore(s.rows[y], s.rows[best], kind)
    {
      best :| best in ids;
      var rest := ids - {best};
      while rest != {}
        invariant best in ids && rest <= ids
        invariant forall y | y in ids - rest :: !T.RanksBefore(s.rows[y], s.rows[best], kind)
        decreases rest
      {
        var y :| y in rest;
        var a, b := rows[y], rows[best];
        var newA, newB := a.Columns(kind).lastAttemptedAt.None?, b.Columns(kind).lastAttemptedAt.None?;
        if if newA != newB then newA else a.createdAt < b.createdAt {
          best := y;
        }
        rest := rest - {y};
      }
    }

    method ClaimBatch(now: int, limit: nat, lease: int, retry: int, locked: set<nat>, ghost s: T.State, ghost worker: nat)
      returns (claimed: seq<nat>)
      requires Represents(rows, s) && worker !in s.open
      requires forall id | id in rows :: id in locked <==> T.Locked(s, id)
      modifies this
      ensures ClaimedRows(old(rows), rows, C.Telegram, Elements(claimed), now)
      ensures Distinct(claimed) && forall id | id in claimed :: id in old(rows) && id !in locked
      ensures TakesOldestFirst(old(rows), locked, T.Batch(C.Telegram, now, lease, retry, claimed), limit)
      ensures ClaimStepsTaken(rows, s, worker, T.Batch(C.Telegram, now, lease, retry, claimed), limit)
    {
      hide T.BestFirst, T.Due, ClaimStepsTaken, TakesOldestFirst, T.Claimable, Represents, T.Locked;
      claimed := SelectDue(C.Telegram, now, limit, lease, retry, locked, s);
      for k := 0 to |claimed|
        invariant ClaimedRows(old(rows), rows, C.Telegram, Elements(claimed[..k]), now)
      {
        assert claimed[k] !in claimed[..k];
        var row := rows[claimed[k]];
        row := row.(status := C.Processing, claimedAt := Some(now), attemptCount := row.attemptCount + 1);
        ClaimOneMore(old(rows), rows, C.Telegram, Elements(claimed[..k]), claimed[k], row, now);
        rows := rows[claimed[k] := row];
        assert Elements(claimed[..k + 1]) == Elements(claimed[..k]) + {claimed[k]};
      }
      assert claimed[..|claimed|] == claimed;
      ClaimRefinesSteps(old(rows), rows, s, worker, T.Batch(C.Telegram, now, lease, retry, claimed), limit);
    }

    method ClaimPushBatch(now: int, limit: nat, lease: int, retry: int, locked: set<nat>, ghost s: T.State, ghost worker: nat)
      returns (claimed: seq<nat>)
      requires Represents(rows, s) && worker !in s.open
      requires forall id | id in rows :: id in locked <==> T.Locked(s, id)
      modifies this
      ensures ClaimedRows(old(rows), rows, C.Push, Elements(claimed), now)
      ensures Distinct(claimed) && forall id | id in claimed :: id in old(rows) && id !in locked
      ensures TakesOldestFirst(old(rows), locked, T.Batch(C.Push, now, lease, retry, claimed), limit)
      ensures ClaimStepsTaken(rows, s, worker, T.Batch(C.Push, now, lease, retry, claimed), limit)
    {
      hide T.BestFirst, T.Due, ClaimStepsTaken, TakesOldestFirst, T.Claimable, Represents, T.Locked;
      claimed := SelectDue(C.Push, now, limit, lease, retry, locked, s);
      for k := 0 to |claimed|
        invariant ClaimedRows(old(rows), rows, C.Push, Elements(claimed[..k]), now)
      {
        assert claimed[k] !in claimed[..k];
        var row := rows[claimed[k]];
        row := row.(pushStatus := C.Processing, pushClaimedAt := Some(now), pushAttemptCount := row.pushAttemptCount + 1);
        ClaimOneMore(old(rows), rows, C.Push, Elements(claimed[..k]), claimed[k], row, now);
        rows := rows[claimed[k] := row];
        assert Elements(claimed[..k + 1]) == Elements(claimed[..k]) + {claimed[k]};
      }
      assert claimed[..|claimed|] == claimed;
      ClaimRefinesSteps(old(rows), rows, s, worker, T.Batch(C.Push, now, lease, retry, claimed), limit);
    }

    method Complete(id: nat, now: int, success: bool, error: Option<C.ErrorText>, maxAttempts: int)
      modifies this
      ensures CompletedRow(old(rows), rows, C.Telegram, id, now, success, error, maxAttempts)
    {
      if id !in rows {
        return;
      }
      var row := rows[id].(lastAttemptedAt := Some(now));
      if success {
        row := row.(status := C.Sent, sentAt := Some(now), lastError := None);
      } else if error == Some(C.AwaitingDestination) {
        row := row.(
          attemptCount := if 0 < row.attemptCount - 1 then row.attemptCount - 1 else 0,
          lastError := error, status := C.Pending);
      } else {
        row := row.(lastError := error, status := if row.attemptCount >= maxAttempts then C.Failed else C.Pending);
      }
      rows := rows[id := row];
    }

    method CompletePush(id: nat, now: int, success: bool, error: Option<C.ErrorText>, maxAttempts: int)
      modifies this
      ensures CompletedRow(old(rows), rows, C.Push, id, now, success, error, maxAttempts)
    {
      if id !in rows {
        return;
      }
      var row := rows[id].(pushLastAttemptedAt := Some(now));
      if success {
        row := row.(pushStatus := C.Sent, pushSentAt := Some(now), pushLastError := None);
      } else if error == Some(C.NoDeviceRegistered) {
        row := row.(
          pushAttemptCount := if 0 < row.pushAttemptCount - 1 then row.pushAttemptCount - 1 else 0,
          pushLastError := error, pushStatus := C.Pending);
      } else {
        row := row.(
          pushLastError := error, pushStatus := if row.pushAttemptCount >= maxAttempts then C.Failed else C.Pending);
      }
      rows := rows[id := row];
    }
  }
}
