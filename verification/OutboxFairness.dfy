/** The claim order and starvation: rows that keep being retried can never hold
    back a row that was never attempted. */
module OutboxFairness {

  import opened Sql
  import opened OutboxTable
  import C = OutboxChannel

  ghost predicate LockedBy(s: State, id: nat, kind: C.Kind) {
    exists w :: w in s.open && s.open[w].kind == kind && id in s.open[w].ids
  }

  /** Never attempted on this channel and not yet in any claim of it. */
  ghost predicate Waits(s: State, id: nat, kind: C.Kind) {
    && id in s.rows
    && s.rows[id].Channel(kind).columns.status == C.Pending
    && NeverAttempted(s.rows[id].Channel(kind))
    && !LockedBy(s, id, kind)
  }

  /** The waiting rows created no later than `r`. */
  ghost function Ahead(s: State, r: nat, kind: C.Kind): set<nat>
    requires r in s.rows
  {
    set x | x in s.rows && x != r && Waits(s, x, kind) && s.rows[x].createdAt <= s.rows[r].createdAt
  }

  /** What the bound needs of the steps around a waiting row: rows are enqueued
      in time order; no claim transaction of the channel is rolled back; and
      when one begins, the other channel holds no locks and every claimed row
      still has its lease or has been completed. */
  ghost predicate Calm(s: State, e: Step, r: nat, kind: C.Kind, limit: nat) {
    match e
    case Enqueue(_, createdAt) => r in s.rows ==> s.rows[r].createdAt < createdAt
    case Delete(id) => id != r
    case Rollback(k, _) => k != kind
    case Begin(_, b, n) =>
      b.kind == kind ==>
        && n == limit
        && OtherChannelIdle(s, kind)
        && (forall id | id in s.rows && NeverAttempted(s.rows[id].Channel(kind))
              && s.rows[id].Channel(kind).columns.status == C.Processing :: !Due(s.rows[id], b))
    case _ => true
  }

  ghost predicate CalmRun(s: State, run: seq<Step>, r: nat, kind: C.Kind, limit: nat) {
    run == [] ||
    (CalmRun(s, run[..|run| - 1], r, kind, limit)
     && Calm(Replay(s, run[..|run| - 1]), run[|run| - 1], r, kind, limit))
  }

  predicate ClaimsOn(e: Step, kind: C.Kind) {
    e.Begin? && e.batch.kind == kind
  }

  function ClaimCalls(run: seq<Step>, kind: C.Kind): nat {
    if run == [] then 0
    else ClaimCalls(run[..|run| - 1], kind) + if ClaimsOn(run[|run| - 1], kind) then 1 else 0
  }

  predicate Takes(e: Step, r: nat, kind: C.Kind) {
    ClaimsOn(e, kind) && r in e.batch.ids
  }

  lemma LocksOfIdleChannel(s: State, id: nat, kind: C.Kind)
    requires OtherChannelIdle(s, kind)
    ensures Locked(s, id) <==> LockedBy(s, id, kind)
  {
  }

  /** A claim that passes over a waiting row fills up on rows ahead of it. */
  lemma PassedOverByRowsAhead(s: State, w: nat, b: Batch, limit: nat, r: nat)
    requires Claimable(s, b) && BestFirst(s, b, limit) && Waits(s, r, b.kind) && r !in b.ids
    requires Calm(s, Begin(w, b, limit), r, b.kind, limit)
    ensures |b.ids| == limit && forall id | id in b.ids :: id in Ahead(s, r, b.kind)
  {
    LocksOfIdleChannel(s, r, b.kind);
    forall id | id in b.ids
      ensures id in Ahead(s, r, b.kind)
    {
      var p :| 0 <= p < |b.ids| && b.ids[p] == id;
      assert !RanksBefore(s.rows[r], s.rows[b.ids[p]], b.kind);
      LocksOfIdleChannel(s, id, b.kind);
    }
  }

  lemma LocksAfterBegin(s: State, w: nat, b: Batch, x: nat)
    requires w !in s.open
    ensures LockedBy(s.(open := s.open[w := b]), x, b.kind) <==> LockedBy(s, x, b.kind) || x in b.ids
  {
    var t := s.(open := s.open[w := b]);
    if x in b.ids {
      assert w in t.open && t.open[w].kind == b.kind && x in t.open[w].ids;
    }
    if LockedBy(s, x, b.kind) {
      var v :| v in s.open && s.open[v].kind == b.kind && x in s.open[v].ids;
      assert v in t.open && t.open[v] == s.open[v];
    }
  }

  lemma AheadAfterBegin(s: State, w: nat, b: Batch, r: nat)
    requires w !in s.open && r in s.rows
    ensures Ahead(s.(open := s.open[w := b]), r, b.kind) <= Ahead(s, r, b.kind) - Elements(b.ids)
  {
    var t := s.(open := s.open[w := b]);
    forall x | x in Ahead(t, r, b.kind)
      ensures x in Ahead(s, r, b.kind) - Elements(b.ids)
    {
      LocksAfterBegin(s, w, b, x);
    }
  }

  lemma ClaimCallShrinksAhead(s: State, w: nat, b: Batch, r: nat, limit: nat)
    requires w !in s.open && Claimable(s, b) && BestFirst(s, b, limit) && Calm(s, Begin(w, b, limit), r, b.kind, limit)
    requires Waits(s, r, b.kind) && r !in b.ids
    ensures var t := s.(open := s.open[w := b]);
            && Waits(t, r, b.kind)
            && |Ahead(t, r, b.kind)| + limit <= |Ahead(s, r, b.kind)|
  {
    var t, taken := s.(open := s.open[w := b]), Elements(b.ids);
    PassedOverByRowsAhead(s, w, b, limit, r);
    DistinctCount(b.ids);
    LocksAfterBegin(s, w, b, r);
    AheadAfterBegin(s, w, b, r);
    SubsetCount(Ahead(t, r, b.kind), Ahead(s, r, b.kind) - taken);
    assert taken <= Ahead(s, r, b.kind);
  }

  lemma LocksAfterOtherStep(s: State, e: Step, x: nat, kind: C.Kind)
    requires !ClaimsOn(e, kind) && Enabled(s, e, true) && !(e.Rollback? && e.kind == kind)
    ensures LockedBy(Apply(s, e), x, kind) ==> LockedBy(s, x, kind)
    ensures LockedBy(s, x, kind) && !LockedBy(Apply(s, e), x, kind) ==>
              e.Commit? && e.kind == kind && x in s.open[e.worker].ids
  {
    var t := Apply(s, e);
    if LockedBy(t, x, kind) {
      var w :| w in t.open && t.open[w].kind == kind && x in t.open[w].ids;
      assert w in s.open && s.open[w] == t.open[w];
    }
    if LockedBy(s, x, kind) {
      var w :| w in s.open && s.open[w].kind == kind && x in s.open[w].ids;
      assert w in t.open ==> t.open[w] == s.open[w];
    }
  }

  lemma UntouchedRowKeepsWaiting(s: State, e: Step, x: nat, kind: C.Kind)
    requires RowsConsistent(s) && x in s.rows && !ClaimsOn(e, kind) && Enabled(s, e, true)
    requires e != Delete(x) && !(e.Rollback? && e.kind == kind)
    ensures x in Apply(s, e).rows && Apply(s, e).rows[x].createdAt == s.rows[x].createdAt
    ensures Waits(Apply(s, e), x, kind) <==> Waits(s, x, kind)
  {
    LocksAfterOtherStep(s, e, x, kind);
    assert C.Inv(kind, s.rows[x].Channel(kind));
    if e.Commit? && e.kind == kind && x in s.open[e.worker].ids {
      assert LockedBy(s, x, kind);
    }
  }

  lemma OtherStepKeepsAhead(s: State, e: Step, r: nat, kind: C.Kind, limit: nat)
    requires RowsConsistent(s) && !ClaimsOn(e, kind) && Enabled(s, e, true) && Calm(s, e, r, kind, limit)
    requires Waits(s, r, kind)
    ensures Waits(Apply(s, e), r, kind)
    ensures |Ahead(Apply(s, e), r, kind)| <= |Ahead(s, r, kind)|
  {
    UntouchedRowKeepsWaiting(s, e, r, kind);
    var t := Apply(s, e);
    forall x | x in Ahead(t, r, kind)
      ensures x in Ahead(s, r, kind)
    {
      if x in s.rows {
        UntouchedRowKeepsWaiting(s, e, x, kind);
      }
    }
    SubsetCount(Ahead(t, r, kind), Ahead(s, r, kind));
  }

  lemma AheadStep(s: State, e: Step, r: nat, kind: C.Kind, limit: nat)
    requires RowsConsistent(s) && Enabled(s, e, true) && Calm(s, e, r, kind, limit)
    requires Waits(s, r, kind) && !Takes(e, r, kind)
    ensures Waits(Apply(s, e), r, kind)
    ensures |Ahead(Apply(s, e), r, kind)| + (if ClaimsOn(e, kind) then limit else 0) <= |Ahead(s, r, kind)|
  {
    if ClaimsOn(e, kind) {
      ClaimCallShrinksAhead(s, e.worker, e.batch, r, limit);
    } else {
      OtherStepKeepsAhead(s, e, r, kind, limit);
    }
  }

  /** The most rows the claim calls of a run can take. */
  function Capacity(run: seq<Step>, kind: C.Kind, limit: nat): nat {
    if run == [] then 0
    else Capacity(run[..|run| - 1], kind, limit) + if ClaimsOn(run[|run| - 1], kind) then limit else 0
  }

  lemma {:induction false} CapacityOfCalls(run: seq<Step>, kind: C.Kind, limit: nat)
    ensures Capacity(run, kind, limit) == limit * ClaimCalls(run, kind)
  {
    if run != [] {
      CapacityOfCalls(run[..|run| - 1], kind, limit);
    }
  }

  ghost predicate NeverTakes(run: seq<Step>, r: nat, kind: C.Kind) {
    forall k | 0 <= k < |run| :: !Takes(run[k], r, kind)
  }

  lemma {:induction false} PassedOverRunShrinksAhead(s: State, run: seq<Step>, r: nat, kind: C.Kind, limit: nat)
    requires Inv(s) && Legal(s, run, true) && Waits(s, r, kind) && CalmRun(s, run, r, kind, limit)
    requires NeverTakes(run, r, kind)
    ensures Waits(Replay(s, run), r, kind)
    ensures |Ahead(Replay(s, run), r, kind)| + Capacity(run, kind, limit) <= |Ahead(s, r, kind)|
  {
    if run != [] {
      var before, e := run[..|run| - 1], run[|run| - 1];
      assert NeverTakes(before, r, kind);
      PassedOverRunShrinksAhead(s, before, r, kind, limit);
      FairIsLegal(s, before);
      RunsKeepInv(s, before);
      AheadStep(Replay(s, before), e, r, kind, limit);
    }
  }

  lemma {:induction false} FairIsLegal(s: State, run: seq<Step>)
    requires Legal(s, run, true)
    ensures Legal(s, run, false)
  {
    if run != [] {
      FairIsLegal(s, run[..|run| - 1]);
    }
  }

  /** A row never attempted, with `k` such rows created no later, is claimed
      within `ceil((k + 1) / limit)` claim calls, however many rows recycle. */
  lemma NeverAttemptedRowIsClaimed(past: seq<Step>, run: seq<Step>, r: nat, kind: C.Kind, limit: nat)
    requires limit > 0 && Legal(EMPTY, past, true)
    requires var s := Replay(EMPTY, past);
             && Legal(s, run, true) && Waits(s, r, kind) && CalmRun(s, run, r, kind, limit)
             && ClaimCalls(run, kind) >= (|Ahead(s, r, kind)| + limit) / limit
    ensures exists k :: 0 <= k < |run| && Takes(run[k], r, kind)
  {
    var s := Replay(EMPTY, past);
    FairIsLegal(EMPTY, past);
    RunsKeepInv(EMPTY, past);
    if NeverTakes(run, r, kind) {
      PassedOverRunShrinksAhead(s, run, r, kind, limit);
      CapacityOfCalls(run, kind, limit);
      Rounds(|Ahead(s, r, kind)|, limit, ClaimCalls(run, kind));
    }
  }

  lemma MoreCallsMoreRows(limit: nat, few: nat, many: nat)
    requires few <= many
    ensures limit * few <= limit * many
  {
  }

  lemma Rounds(k: nat, limit: nat, calls: nat)
    requires limit > 0 && calls >= (k + limit) / limit
    ensures limit * calls > k
  {
    var rounds, rest := (k + limit) / limit, (k + limit) % limit;
    assert k + limit == limit * rounds + rest && rest < limit;
    MoreCallsMoreRows(limit, rounds, calls);
  }
}
