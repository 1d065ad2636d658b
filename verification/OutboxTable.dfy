/** The outbox table as a step system: any number of workers on both channels,
    open claim transactions with their row locks, late completions, crashes,
    enqueues and deletions in any order.

    A claim is two steps, because its locks are the point: `Begin` is the
    `SELECT .. FOR UPDATE SKIP LOCKED`, `Commit` writes the claimed rows and
    releases them. Every other transaction is one step, and one that writes a
    locked row has to wait. */
module OutboxTable {

  import opened Sql
  import C = OutboxChannel

  /** The rows carry the claim log of each channel next to its columns. */
  datatype Row = Row(createdAt: int, telegram: C.History, push: C.History) {
    function Channel(kind: C.Kind): C.History {
      if kind == C.Telegram then telegram else push
    }

    function With(kind: C.Kind, h: C.History): Row {
      if kind == C.Telegram then this.(telegram := h) else this.(push := h)
    }
  }

  /** An open claim transaction and the rows it has locked. */
  datatype Batch = Batch(kind: C.Kind, now: int, lease: int, retry: int, ids: seq<nat>)

  datatype State = State(rows: map<nat, Row>, open: map<nat, Batch>)

  const EMPTY := State(map[], map[])

  datatype Step =
    | Enqueue(id: nat, createdAt: int)
    | Delete(id: nat)
    | Begin(worker: nat, batch: Batch, limit: nat)
    | Commit(kind: C.Kind, worker: nat)
    | Rollback(kind: C.Kind, worker: nat)
    | Act(kind: C.Kind, id: nat, event: C.Event)

  ghost predicate Locked(s: State, id: nat) {
    exists w :: w in s.open && id in s.open[w].ids
  }

  // ------------------------------------------------------ the claim query

  predicate NeverAttempted(h: C.History) {
    h.columns.lastAttemptedAt.None?
  }

  predicate Due(r: Row, b: Batch) {
    C.Eligible(b.kind, r.Channel(b.kind).columns, b.now, b.lease, b.retry)
  }

  /** `ORDER BY last_attempted_at IS NULL DESC, created_at ASC`. */
  predicate RanksBefore(a: Row, b: Row, kind: C.Kind) {
    var x, y := NeverAttempted(a.Channel(kind)), NeverAttempted(b.Channel(kind));
    if x != y then x else a.createdAt < b.createdAt
  }

  /** The query returns rows it may claim, each once. */
  ghost predicate Claimable(s: State, b: Batch) {
    && (forall p | 0 <= p < |b.ids| :: b.ids[p] in s.rows && Due(s.rows[b.ids[p]], b) && !Locked(s, b.ids[p]))
    && Distinct(b.ids)
  }

  /** It returns them in order and leaves out only rows that rank no better
      than any it took, once the batch is full. */
  ghost predicate BestFirst(s: State, b: Batch, limit: nat)
    requires Claimable(s, b)
  {
    && |b.ids| <= limit
    && (forall p, q | 0 <= p < q < |b.ids| :: !RanksBefore(s.rows[b.ids[q]], s.rows[b.ids[p]], b.kind))
    && (forall id | id in s.rows && id !in b.ids && Due(s.rows[id], b) && !Locked(s, id) ::
          |b.ids| == limit && forall p | 0 <= p < |b.ids| :: !RanksBefore(s.rows[id], s.rows[b.ids[p]], b.kind))
  }

  // ---------------------------------------------------------------- steps

  /** `fair` asks for the order and limit of the query as well as its filter. */
  ghost predicate Enabled(s: State, e: Step, fair: bool) {
    match e
    case Enqueue(id, _) => id !in s.rows
    case Delete(id) => id in s.rows && !Locked(s, id)
    case Begin(w, b, limit) => w !in s.open && Claimable(s, b) && (fair ==> BestFirst(s, b, limit))
    case Commit(kind, w) => w in s.open && s.open[w].kind == kind
    case Rollback(kind, w) => w in s.open && s.open[w].kind == kind
    case Act(kind, id, event) =>
      && !event.Claim?
      && (id in s.rows ==> C.Enabled(kind, s.rows[id].Channel(kind), event) && (event.Complete? ==> !Locked(s, id)))
  }

  function ClaimRow(r: Row, b: Batch): Row {
    r.With(b.kind, C.Apply(b.kind, r.Channel(b.kind), C.Claim(b.now, b.lease, b.retry)))
  }

  function Apply(s: State, e: Step): State {
    match e
    case Enqueue(id, createdAt) => s.(rows := s.rows[id := Row(createdAt, C.NEW, C.NEW)])
    case Delete(id) => s.(rows := s.rows - {id})
    case Begin(w, b, _) => s.(open := s.open[w := b])
    case Commit(kind, w) =>
      if w in s.open && s.open[w].kind == kind then
        State(map id | id in s.rows :: if id in s.open[w].ids then ClaimRow(s.rows[id], s.open[w]) else s.rows[id],
              s.open - {w})
      else s
    case Rollback(kind, w) => if w in s.open && s.open[w].kind == kind then s.(open := s.open - {w}) else s
    case Act(kind, id, event) =>
      // A row deleted in the meantime is silently ignored.
      if id in s.rows then
        s.(rows := s.rows[id := s.rows[id].With(kind, C.Apply(kind, s.rows[id].Channel(kind), event))])
      else s
  }

  function Replay(s: State, run: seq<Step>): State {
    if run == [] then s else Apply(Replay(s, run[..|run| - 1]), run[|run| - 1])
  }

  ghost predicate Legal(s: State, run: seq<Step>, fair: bool) {
    run == [] ||
    (Legal(s, run[..|run| - 1], fair) && Enabled(Replay(s, run[..|run| - 1]), run[|run| - 1], fair))
  }

  // ------------------------------------------------------------ invariant

  ghost predicate RowsConsistent(s: State) {
    forall id, kind: C.Kind | id in s.rows :: C.Inv(kind, s.rows[id].Channel(kind))
  }

  /** Locked rows stay as the query saw them, and no two open claims share one. */
  ghost predicate LocksConsistent(s: State) {
    && (forall w, id | w in s.open && id in s.open[w].ids :: id in s.rows && Due(s.rows[id], s.open[w]))
    && (forall w, v, id | w in s.open && v in s.open && id in s.open[w].ids && id in s.open[v].ids :: w == v)
  }

  ghost predicate Inv(s: State) {
    RowsConsistent(s) && LocksConsistent(s)
  }

  lemma ActKeepsDue(s: State, kind: C.Kind, id: nat, event: C.Event, b: Batch)
    requires id in s.rows && Enabled(s, Act(kind, id, event), false) && !event.Complete?
    requires Due(s.rows[id], b)
    ensures Due(Apply(s, Act(kind, id, event)).rows[id], b)
  {
  }

  lemma LockedRowsStayDue(s: State, e: Step)
    requires LocksConsistent(s) && Enabled(s, e, false)
    ensures var t := Apply(s, e);
            forall w, id | w in t.open && id in t.open[w].ids :: id in t.rows && Due(t.rows[id], t.open[w])
  {
    var t := Apply(s, e);
    forall w, id | w in t.open && id in t.open[w].ids
      ensures id in t.rows && Due(t.rows[id], t.open[w])
    {
      if e.Begin? && w == e.worker {
        var p :| 0 <= p < |e.batch.ids| && e.batch.ids[p] == id;
      } else {
        assert Locked(s, id);
        if e.Act? && e.id == id {
          ActKeepsDue(s, e.kind, id, e.event, s.open[w]);
        }
      }
    }
  }

  lemma LocksStep(s: State, e: Step)
    requires LocksConsistent(s) && Enabled(s, e, false)
    ensures LocksConsistent(Apply(s, e))
  {
    var t := Apply(s, e);
    LockedRowsStayDue(s, e);
    forall w, v, id | w in t.open && v in t.open && id in t.open[w].ids && id in t.open[v].ids
      ensures w == v
    {
      if w in s.open {
        assert Locked(s, id);
      }
      if v in s.open {
        assert Locked(s, id);
      }
    }
  }

  /** What step `e` does on one channel of row `id`, if anything. */
  ghost function EventOf(s: State, e: Step, id: nat, kind: C.Kind): seq<C.Event> {
    match e
    case Commit(k, w) =>
      if k == kind && w in s.open && s.open[w].kind == k && id in s.open[w].ids then
        [C.Claim(s.open[w].now, s.open[w].lease, s.open[w].retry)]
      else []
    case Act(k, n, event) => if k == kind && n == id then [event] else []
    case _ => []
  }

  /** The step takes that event on the channel, and none other. */
  lemma EventIsTaken(s: State, e: Step, id: nat, kind: C.Kind)
    requires LocksConsistent(s) && Enabled(s, e, false) && id in s.rows && e != Delete(id)
    ensures id in Apply(s, e).rows
    ensures var h, g, event := s.rows[id].Channel(kind), Apply(s, e).rows[id].Channel(kind), EventOf(s, e, id, kind);
            if event == [] then g == h else |event| == 1 && C.Enabled(kind, h, event[0]) && g == C.Apply(kind, h, event[0])
  {
    hide C.Apply;
    if e.Commit? && e.kind == kind && id in s.open[e.worker].ids {
      assert Due(s.rows[id], s.open[e.worker]);
    }
  }

  lemma RowStep(s: State, e: Step, id: nat, kind: C.Kind)
    requires Inv(s) && Enabled(s, e, false) && id in Apply(s, e).rows
    ensures C.Inv(kind, Apply(s, e).rows[id].Channel(kind))
  {
    hide C.Inv, C.Apply, C.Enabled;
    if id in s.rows {
      assert C.Inv(kind, s.rows[id].Channel(kind));
      EventIsTaken(s, e, id, kind);
      if EventOf(s, e, id, kind) != [] {
        C.InvStep(kind, s.rows[id].Channel(kind), EventOf(s, e, id, kind)[0]);
      }
    } else {
      C.Start(kind);
      C.LegalRunsKeepInv(kind, []);
    }
  }

  lemma RowsStep(s: State, e: Step)
    requires Inv(s) && Enabled(s, e, false)
    ensures RowsConsistent(Apply(s, e))
  {
    forall id, kind: C.Kind | id in Apply(s, e).rows
      ensures C.Inv(kind, Apply(s, e).rows[id].Channel(kind))
    {
      RowStep(s, e, id, kind);
    }
  }

  lemma {:induction false} RunsKeepInv(s: State, run: seq<Step>)
    requires Inv(s) && Legal(s, run, false)
    ensures Inv(Replay(s, run))
  {
    if run != [] {
      RunsKeepInv(s, run[..|run| - 1]);
      LocksStep(Replay(s, run[..|run| - 1]), run[|run| - 1]);
      RowsStep(Replay(s, run[..|run| - 1]), run[|run| - 1]);
    }
  }

  // -------------------------------------------------- laws of every run

  /** The claim order, on the columns. Rows never attempted come before all others,
      and within either group the older row comes first: between two rows of a
      batch, and between a row of the batch and one that was left out, for which
      there was then no room. */
  lemma OldestFirstInEitherGroup(s: State, w: nat, b: Batch, limit: nat, p: nat, other: nat)
    requires Enabled(s, Begin(w, b, limit), true) && p < |b.ids| && other in s.rows
    requires C.Eligible(b.kind, s.rows[other].Channel(b.kind).columns, b.now, b.lease, b.retry) && !Locked(s, other)
    requires other !in b.ids[..p + 1]
    ensures b.ids[p] in s.rows
    ensures var row, next := s.rows[b.ids[p]], s.rows[other];
            var attempted := row.Channel(b.kind).columns.lastAttemptedAt.Some?;
            && (next.Channel(b.kind).columns.lastAttemptedAt.None? ==> !attempted)
            && (attempted == next.Channel(b.kind).columns.lastAttemptedAt.Some? ==> row.createdAt <= next.createdAt)
    ensures other !in b.ids ==> |b.ids| == limit
  {
    if other in b.ids {
      var q :| 0 <= q < |b.ids| && b.ids[q] == other;
      assert forall k | 0 <= k <= p :: b.ids[k] == b.ids[..p + 1][k];
      assert !RanksBefore(s.rows[b.ids[q]], s.rows[b.ids[p]], b.kind);
    } else {
      assert !RanksBefore(s.rows[other], s.rows[b.ids[p]], b.kind);
    }
  }

  /** Open claims never share a row, whatever else runs beside them. */
  lemma ConcurrentClaimsAreDisjoint(run: seq<Step>, w: nat, v: nat, id: nat)
    requires Legal(EMPTY, run, false)
    requires var s := Replay(EMPTY, run);
             w in s.open && v in s.open && w != v && id in s.open[w].ids
    ensures id !in Replay(EMPTY, run).open[v].ids
  {
    RunsKeepInv(EMPTY, run);
  }

  // ------------------------------------------------- one row of the table

  /** What happened on one channel of row `id` since it was last enqueued. */
  ghost function RowEvents(run: seq<Step>, id: nat, kind: C.Kind): seq<C.Event> {
    if run == [] then []
    else
      var before, e := run[..|run| - 1], run[|run| - 1];
      if e == Delete(id) || (e.Enqueue? && e.id == id) then []
      else RowEvents(before, id, kind) + EventOf(Replay(EMPTY, before), e, id, kind)
  }

  /** Every row of every run of the table is, on each channel, a run of that
      channel by itself. All laws of channel runs hold of it. */
  lemma {:induction false} RowIsAChannelRun(run: seq<Step>, id: nat, kind: C.Kind)
    requires Legal(EMPTY, run, false) && id in Replay(EMPTY, run).rows
    ensures C.Legal(kind, RowEvents(run, id, kind))
    ensures C.Replay(kind, RowEvents(run, id, kind)) == Replay(EMPTY, run).rows[id].Channel(kind)
  {
    hide C.Legal, C.Replay, C.Apply, C.Enabled, EventOf;
    var before, e := run[..|run| - 1], run[|run| - 1];
    var s := Replay(EMPTY, before);
    RunsKeepInv(EMPTY, before);
    if id in s.rows {
      RowIsAChannelRun(before, id, kind);
      EventIsTaken(s, e, id, kind);
      if EventOf(s, e, id, kind) != [] {
        C.ReplayAppend(kind, RowEvents(before, id, kind), EventOf(s, e, id, kind)[0]);
        assert EventOf(s, e, id, kind) == [EventOf(s, e, id, kind)[0]];
      } else {
        assert RowEvents(before, id, kind) + [] == RowEvents(before, id, kind);
      }
    } else {
      C.Start(kind);
    }
  }

  /** Sends and attempts of every row: see `AcceptedSendsBounded` and
      `AttemptCountExact` of the channel. */
  lemma EveryRowOfEveryRun(run: seq<Step>, id: nat, kind: C.Kind)
    requires Legal(EMPTY, run, false) && id in Replay(EMPTY, run).rows
    ensures var h := Replay(EMPTY, run).rows[id].Channel(kind);
            && |C.AcceptedSends(h.attempts)| <= 1 + |C.LostClaims(h.attempts)|
            && (h.columns.status == C.Sent ==> |C.AcceptedSends(h.attempts)| >= 1)
            && (h.columns.status == C.Sent && C.LostClaims(h.attempts) == {} ==> |C.AcceptedSends(h.attempts)| == 1)
            && h.columns.attemptCount == |h.attempts| - |C.WaitingCompletions(kind, h.attempts)|
            && (h.columns.status == C.Failed ==> h.columns.lastError != Some(C.WaitingError(kind)))
  {
    RowIsAChannelRun(run, id, kind);
    C.AcceptedSendsBounded(kind, RowEvents(run, id, kind));
    C.AttemptCountExact(kind, RowEvents(run, id, kind));
    C.LegalRunsKeepInv(kind, RowEvents(run, id, kind));
  }

  /** Every completion of the row on the channel used the same limit. */
  ghost predicate SameLimit(run: seq<Step>, id: nat, kind: C.Kind, max: int) {
    forall k | 0 <= k < |run| && run[k].Act? && run[k].kind == kind && run[k].id == id ::
      run[k].event.Complete? ==> run[k].event.maxAttempts == max
  }

  lemma {:induction false} LimitOfEvents(run: seq<Step>, id: nat, kind: C.Kind, max: int)
    requires SameLimit(run, id, kind, max)
    ensures C.UniformLimit(RowEvents(run, id, kind), max)
  {
    if run != [] {
      LimitOfEvents(run[..|run| - 1], id, kind, max);
      var event := EventOf(Replay(EMPTY, run[..|run| - 1]), run[|run| - 1], id, kind);
      assert forall k | 0 <= k < |event| :: event[k].Complete? ==> event[k].maxAttempts == max;
    }
  }

  /** The attempt limit, for every row of the table. */
  lemma RowAttemptLimit(run: seq<Step>, id: nat, kind: C.Kind, max: int)
    requires max >= 1 && Legal(EMPTY, run, false) && id in Replay(EMPTY, run).rows && SameLimit(run, id, kind, max)
    ensures var h := Replay(EMPTY, run).rows[id].Channel(kind);
            var c, lost := h.columns, |C.LostClaims(h.attempts)|;
            && c.attemptCount <= max + lost
            && (c.status == C.Pending ==> c.attemptCount < max + lost)
            && (c.status == C.Failed ==> max <= c.attemptCount && c.lastError != Some(C.WaitingError(kind)))
            && (C.LostClaims(h.attempts) == {} && c.status == C.Failed ==> c.attemptCount == max)
  {
    RowIsAChannelRun(run, id, kind);
    LimitOfEvents(run, id, kind, max);
    C.AttemptLimit(kind, RowEvents(run, id, kind), max);
  }

  /** No row of the table is stranded. */
  lemma NoRowIsStranded(run: seq<Step>, id: nat, kind: C.Kind, now: int, lease: int, retry: int)
    requires Legal(EMPTY, run, false) && id in Replay(EMPTY, run).rows
    ensures var c := Replay(EMPTY, run).rows[id].Channel(kind).columns;
            && (C.Terminal(c.status) ==> !C.Eligible(kind, c, now, lease, retry))
            && (c.status == C.Processing ==>
                  c.claimedAt.Some? && (C.Eligible(kind, c, now, lease, retry) <==> c.claimedAt.value + lease < now))
            && (c.status == C.Pending && c.lastError == Some(C.WaitingError(kind)) ==>
                  c.lastAttemptedAt.Some? && (C.Eligible(kind, c, now, lease, retry) <==> c.lastAttemptedAt.value + retry <= now))
            && (c.status == C.Pending && c.lastError != Some(C.WaitingError(kind)) ==> C.Eligible(kind, c, now, lease, retry))
  {
    RowIsAChannelRun(run, id, kind);
    C.NeverStranded(kind, RowEvents(run, id, kind), now, lease, retry);
  }

  /** While no completion comes late, a row's columns tell what became of its
      last claim. */
  lemma RowTellsItsLastClaim(run: seq<Step>, id: nat, kind: C.Kind)
    requires Legal(EMPTY, run, false) && id in Replay(EMPTY, run).rows
    requires C.Prompt(Replay(EMPTY, run).rows[id].Channel(kind))
    ensures C.TellsLastClaim(kind, Replay(EMPTY, run).rows[id].Channel(kind))
  {
    RowIsAChannelRun(run, id, kind);
    C.CompletionsRecordTheHolder(kind, RowEvents(run, id, kind));
  }

  lemma ReplayAppend(s: State, run: seq<Step>, e: Step, fair: bool)
    ensures Replay(s, run + [e]) == Apply(Replay(s, run), e)
    ensures Legal(s, run + [e], fair) <==> Legal(s, run, fair) && Enabled(Replay(s, run), e, fair)
  {
    assert (run + [e])[..|run|] == run;
  }

  lemma RowEventsAppend(run: seq<Step>, e: Step, id: nat, kind: C.Kind)
    requires Enabled(Replay(EMPTY, run), e, false) && id in Replay(EMPTY, run).rows && e != Delete(id)
    ensures id in Apply(Replay(EMPTY, run), e).rows
    ensures RowEvents(run + [e], id, kind) == RowEvents(run, id, kind) + EventOf(Replay(EMPTY, run), e, id, kind)
  {
    hide EventOf;
    assert (run + [e])[..|run|] == run;
  }

  lemma {:induction false} RowStaysItself(run: seq<Step>, more: seq<Step>, id: nat, kind: C.Kind) returns (events: seq<C.Event>)
    requires Legal(EMPTY, run + more, false) && id in Replay(EMPTY, run).rows && Delete(id) !in more
    ensures Legal(EMPTY, run, false) && id in Replay(EMPTY, run + more).rows
    ensures RowEvents(run + more, id, kind) == RowEvents(run, id, kind) + events
  {
    hide Legal, Replay, RowEvents, Apply, Enabled, EventOf;
    if more == [] {
      assert run + more == run;
      events := [];
    } else {
      var before, e := more[..|more| - 1], more[|more| - 1];
      assert run + more == run + before + [e];
      ReplayAppend(EMPTY, run + before, e, false);
      events := RowStaysItself(run, before, id, kind);
      RowEventsAppend(run + before, e, id, kind);
      events := events + EventOf(Replay(EMPTY, run + before), e, id, kind);
    }
  }

  /** While no completion of it comes late, a sent or failed row that is not
      deleted keeps its columns, whatever happens on the table. */
  lemma FinishedRowStays(run: seq<Step>, more: seq<Step>, id: nat, kind: C.Kind)
    requires Legal(EMPTY, run + more, false) && id in Replay(EMPTY, run).rows && Delete(id) !in more
    requires id in Replay(EMPTY, run + more).rows && C.Prompt(Replay(EMPTY, run + more).rows[id].Channel(kind))
    requires C.Terminal(Replay(EMPTY, run).rows[id].Channel(kind).columns.status)
    ensures Replay(EMPTY, run + more).rows[id].Channel(kind).columns == Replay(EMPTY, run).rows[id].Channel(kind).columns
  {
    var events := RowStaysItself(run, more, id, kind);
    RowIsAChannelRun(run, id, kind);
    RowIsAChannelRun(run + more, id, kind);
    C.TerminalIsAbsorbing(kind, RowEvents(run, id, kind), events);
  }

  /** Of all steps on the table, exactly these take a row out of `Sent` or out
      of `Failed`: a completion, of a claim still held, that says otherwise. */
  lemma FinishedRowReopensIff(run: seq<Step>, e: Step, id: nat, kind: C.Kind)
    requires Legal(EMPTY, run, false) && Enabled(Replay(EMPTY, run), e, false)
    requires id in Replay(EMPTY, run).rows && e != Delete(id)
    requires C.Terminal(Replay(EMPTY, run).rows[id].Channel(kind).columns.status)
    ensures id in Apply(Replay(EMPTY, run), e).rows
    ensures var h, g := Replay(EMPTY, run).rows[id].Channel(kind), Apply(Replay(EMPTY, run), e).rows[id].Channel(kind);
            g.columns.status != h.columns.status
            <==> e.Act? && e.kind == kind && e.id == id && e.event.Complete? &&
                 var outcome := h.attempts[e.event.i].outcome;
                 if h.columns.status == C.Sent then !outcome.Accepted?
                 else outcome.Accepted? || outcome.Waiting(kind) || h.columns.attemptCount < e.event.maxAttempts
  {
    var s, events := Replay(EMPTY, run), RowEvents(run, id, kind);
    RunsKeepInv(EMPTY, run);
    RowIsAChannelRun(run, id, kind);
    EventIsTaken(s, e, id, kind);
    if EventOf(s, e, id, kind) != [] {
      var event := EventOf(s, e, id, kind)[0];
      if s.rows[id].Channel(kind).columns.status == C.Sent {
        C.LeavesSentIff(kind, events, event);
      } else {
        C.LeavesFailedIff(kind, events, event);
      }
    }
  }

  /** Two claims of a row with no completion between them are more than the
      second one's lease apart. */
  lemma RowClaimsAreALeaseApart(run: seq<Step>, id: nat, kind: C.Kind, i: nat, j: nat)
    requires Legal(EMPTY, run, false) && id in Replay(EMPTY, run).rows
    requires var events := RowEvents(run, id, kind);
             && i < j < |events| && events[i].Claim? && events[j].Claim?
             && forall k | i < k < j :: events[k].Deliver? || events[k].Crash?
    ensures RowEvents(run, id, kind)[i].now + RowEvents(run, id, kind)[j].lease < RowEvents(run, id, kind)[j].now
  {
    hide C.Legal, C.Replay, Legal, Replay, RowEvents;
    var events := RowEvents(run, id, kind);
    RowIsAChannelRun(run, id, kind);
    C.PrefixIsLegal(kind, events, j + 1);
    assert events[..j + 1] == events[..i] + [events[i]] + events[i + 1..j] + [events[j]];
    C.ClaimsAreALeaseApart(kind, events[..i], events[i], events[i + 1..j], events[j]);
  }

  // ------------------------------------------------------ no interference

  /** Everything one channel can see: its columns and log, and its locks. */
  ghost predicate SameView(s: State, t: State, kind: C.Kind) {
    && s.rows.Keys == t.rows.Keys
    && (forall id | id in s.rows ::
          s.rows[id].createdAt == t.rows[id].createdAt && s.rows[id].Channel(kind) == t.rows[id].Channel(kind))
    && (forall w | w in s.open && s.open[w].kind == kind :: w in t.open && t.open[w] == s.open[w])
    && (forall w | w in t.open :: w in s.open && s.open[w].kind == kind)
  }

  predicate Concerns(e: Step, kind: C.Kind) {
    match e
    case Begin(_, b, _) => b.kind == kind
    case Commit(k, _) => k == kind
    case Rollback(k, _) => k == kind
    case Act(k, _, _) => k == kind
    case _ => true
  }

  /** The run with every step of the other channel deleted. */
  function Only(run: seq<Step>, kind: C.Kind): seq<Step> {
    if run == [] then []
    else Only(run[..|run| - 1], kind) + if Concerns(run[|run| - 1], kind) then [run[|run| - 1]] else []
  }

  lemma OtherChannelIsInvisible(s: State, t: State, e: Step, kind: C.Kind)
    requires SameView(s, t, kind) && !Concerns(e, kind) && Enabled(s, e, false)
    ensures SameView(Apply(s, e), t, kind)
  {
  }

  lemma LocksOfView(s: State, t: State, kind: C.Kind, id: nat)
    requires SameView(s, t, kind) && Locked(t, id)
    ensures Locked(s, id)
  {
    var w :| w in t.open && id in t.open[w].ids;
    assert w in s.open && id in s.open[w].ids;
  }

  lemma OwnChannelAgrees(s: State, t: State, e: Step, kind: C.Kind)
    requires SameView(s, t, kind) && Concerns(e, kind) && Enabled(s, e, false)
    ensures Enabled(t, e, false) && SameView(Apply(s, e), Apply(t, e), kind)
  {
    forall id | id in s.rows && Locked(t, id)
      ensures Locked(s, id)
    {
      LocksOfView(s, t, kind, id);
    }
  }

  ghost predicate OtherChannelIdle(s: State, kind: C.Kind) {
    forall w | w in s.open :: s.open[w].kind == kind
  }

  lemma BestFirstTransfers(s: State, t: State, b: Batch, limit: nat)
    requires SameView(s, t, b.kind) && Claimable(s, b) && Claimable(t, b) && BestFirst(s, b, limit)
    requires forall id | id in s.rows :: Locked(t, id) || !Locked(s, id)
    ensures BestFirst(t, b, limit)
  {
    assert forall p | 0 <= p < |b.ids| :: b.ids[p] in s.rows;
    forall id | id in t.rows && id !in b.ids && Due(t.rows[id], b) && !Locked(t, id)
      ensures |b.ids| == limit && forall p | 0 <= p < |b.ids| :: !RanksBefore(t.rows[id], t.rows[b.ids[p]], b.kind)
    {
      assert Due(s.rows[id], b) && !Locked(s, id);
      assert |b.ids| == limit && forall p | 0 <= p < |b.ids| :: !RanksBefore(s.rows[id], s.rows[b.ids[p]], b.kind);
    }
  }

  lemma OwnChannelStaysFair(s: State, t: State, e: Step, kind: C.Kind)
    requires SameView(s, t, kind) && Concerns(e, kind) && Enabled(s, e, true)
    requires e.Begin? ==> OtherChannelIdle(s, kind)
    ensures Enabled(t, e, true)
  {
    OwnChannelAgrees(s, t, e, kind);
    if e.Begin? {
      forall id | id in s.rows && Locked(s, id)
        ensures Locked(t, id)
      {
        var w :| w in s.open && id in s.open[w].ids;
        assert w in t.open && id in t.open[w].ids;
      }
      BestFirstTransfers(s, t, e.batch, e.limit);
    }
  }

  /** No claim of the channel began while the other one held row locks. */
  ghost predicate ClaimsDoNotOverlap(run: seq<Step>, kind: C.Kind) {
    run == [] ||
    (ClaimsDoNotOverlap(run[..|run| - 1], kind)
     && (run[|run| - 1].Begin? && run[|run| - 1].batch.kind == kind ==>
           OtherChannelIdle(Replay(EMPTY, run[..|run| - 1]), kind)))
  }

  lemma OnlyAppend(run: seq<Step>, e: Step, kind: C.Kind)
    ensures Only(run + [e], kind) == Only(run, kind) + if Concerns(e, kind) then [e] else []
  {
    assert (run + [e])[..|run|] == run;
  }

  lemma FairStepsAreSteps(s: State, e: Step)
    requires Enabled(s, e, true)
    ensures Enabled(s, e, false)
  {
  }

  lemma OwnClaimsAreAlone(run: seq<Step>, e: Step, kind: C.Kind)
    requires ClaimsDoNotOverlap(run + [e], kind) && Concerns(e, kind)
    ensures ClaimsDoNotOverlap(run, kind) && (e.Begin? ==> OtherChannelIdle(Replay(EMPTY, run), kind))
  {
    assert (run + [e])[..|run|] == run;
  }

  lemma NoSteps(kind: C.Kind)
    ensures Legal(EMPTY, [], true) && Legal(EMPTY, [], false) && Replay(EMPTY, []) == EMPTY && Only([], kind) == []
  {
  }

  lemma NothingToSee(kind: C.Kind)
    ensures SameView(EMPTY, EMPTY, kind)
  {
  }

  /** Deleting one channel's steps leaves the other's columns, claims, sends
      and counters as they were, and leaves a run. It is even a fair run if the
      channels' claim transactions did not overlap: they share row locks. */
  lemma {:induction false} ChannelsDoNotInterfere(run: seq<Step>, kind: C.Kind)
    requires Legal(EMPTY, run, true)
    ensures Legal(EMPTY, Only(run, kind), false)
    ensures SameView(Replay(EMPTY, run), Replay(EMPTY, Only(run, kind)), kind)
    ensures ClaimsDoNotOverlap(run, kind) ==> Legal(EMPTY, Only(run, kind), true)
  {
    hide Legal, Replay, Only, Apply, Enabled, SameView, Concerns, OtherChannelIdle;
    if run == [] {
      NoSteps(kind);
      NothingToSee(kind);
    } else {
      var before, e := run[..|run| - 1], run[|run| - 1];
      assert run == before + [e];
      ReplayAppend(EMPTY, before, e, true);
      OnlyAppend(before, e, kind);
      ChannelsDoNotInterfere(before, kind);
      var s, t := Replay(EMPTY, before), Replay(EMPTY, Only(before, kind));
      FairStepsAreSteps(s, e);
      if Concerns(e, kind) {
        OwnChannelAgrees(s, t, e, kind);
        ReplayAppend(EMPTY, Only(before, kind), e, false);
        if ClaimsDoNotOverlap(run, kind) {
          OwnClaimsAreAlone(before, e, kind);
          OwnChannelStaysFair(s, t, e, kind);
          ReplayAppend(EMPTY, Only(before, kind), e, true);
        }
      } else {
        OtherChannelIsInvisible(s, t, e, kind);
        assert Only(run, kind) == Only(before, kind);
      }
    }
  }

  const PUSH_CLAIM := Batch(C.Push, 5, 1, 1, [0])
  const TELEGRAM_CLAIM := Batch(C.Telegram, 5, 1, 1, [])

  lemma FirstPushClaim()
    ensures var s := Apply(EMPTY, Enqueue(0, 0));
            && s == State(map[0 := Row(0, C.NEW, C.NEW)], map[])
            && Enabled(s, Begin(1, PUSH_CLAIM, 1), true)
            && Apply(s, Begin(1, PUSH_CLAIM, 1)) == State(s.rows, map[1 := PUSH_CLAIM])
  {
    var s := Apply(EMPTY, Enqueue(0, 0));
    assert s.rows == map[0 := Row(0, C.NEW, C.NEW)];
    assert Due(s.rows[0], PUSH_CLAIM);
  }

  lemma PushClaimHoldsRow() returns (run: seq<Step>)
    ensures Legal(EMPTY, run, true)
    ensures Replay(EMPTY, run) == State(map[0 := Row(0, C.NEW, C.NEW)], map[1 := PUSH_CLAIM])
    ensures Only(run, C.Telegram) == [Enqueue(0, 0)]
    ensures Legal(EMPTY, [Enqueue(0, 0)], true)
    ensures Replay(EMPTY, [Enqueue(0, 0)]) == State(map[0 := Row(0, C.NEW, C.NEW)], map[])
  {
    hide Legal, Replay, Only;
    NoSteps(C.Telegram);
    var one, claim := [] + [Enqueue(0, 0)], Begin(1, PUSH_CLAIM, 1);
    ReplayAppend(EMPTY, [], Enqueue(0, 0), true);
    OnlyAppend([], Enqueue(0, 0), C.Telegram);
    FirstPushClaim();
    ReplayAppend(EMPTY, one, claim, true);
    OnlyAppend(one, claim, C.Telegram);
    run := one + [claim];
    assert one == [Enqueue(0, 0)] && [Enqueue(0, 0)] + [] == [Enqueue(0, 0)];
  }

  /** The shared locks are real: a push claim in flight makes a Telegram claim
      pass over a row it would otherwise have taken. */
  lemma OverlappingClaimPassesOver() returns (run: seq<Step>)
    ensures Legal(EMPTY, run, true) && !Legal(EMPTY, Only(run, C.Telegram), true)
  {
    var before := PushClaimHoldsRow();
    var e := Begin(2, TELEGRAM_CLAIM, 1);
    assert Locked(Replay(EMPTY, before), 0) by {
      assert 0 in Replay(EMPTY, before).open[1].ids;
    }
    run := before + [e];
    ReplayAppend(EMPTY, before, e, true);
    OnlyAppend(before, e, C.Telegram);
    ReplayAppend(EMPTY, [Enqueue(0, 0)], e, true);
    assert Due(Row(0, C.NEW, C.NEW), TELEGRAM_CLAIM);
  }
}
