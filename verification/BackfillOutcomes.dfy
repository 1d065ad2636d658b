/** What a backfill run does to every single row and reports of it, in terms of
    the table before the run and of the marketplaces' answers. */
module BackfillOutcomes {

  import opened Sql
  import opened OrderBy
  import opened MetadataBackfill
  import opened BackfillProgress

  // ------------------------------------------------------------ selection

  /** Something is missing, and no earlier run has ended the matter. */
  ghost predicate Wanted(rows: Rows, marketplace: Option<string>, id: nat) {
    && id in rows && (rows[id].status == Pending || rows[id].status == Failed)
    && (exists f: Field :: f !in rows[id].metadata)
    && (marketplace == None || Some(rows[id].marketplace) == marketplace)
  }

  ghost predicate FoundLater(rows: Rows, y: nat, c: nat)
    requires y in rows && c in rows
  {
    rows[y].discoveredAt > rows[c].discoveredAt || (rows[y].discoveredAt == rows[c].discoveredAt && y > c)
  }

  ghost function WantedLater(rows: Rows, marketplace: Option<string>, c: nat): set<nat>
    requires c in rows
  {
    set y | y in rows && Wanted(rows, marketplace, y) && FoundLater(rows, y, c)
  }

  /** A run takes up the `limit` wanted rows that were found last. */
  lemma SelectionIs(rows: Rows, marketplace: Option<string>, limit: nat, c: nat)
    requires c in rows
    ensures c in MissingMetadata(rows, marketplace, limit) <==>
            Wanted(rows, marketplace, c) && |WantedLater(rows, marketplace, c)| < limit
  {
    hide MissingMetadata;
    WantedIff(rows, marketplace);
    if c in Candidates(rows, marketplace) {
      SelectedIffFewNewer(rows, marketplace, limit, c);
      assert Newer(rows, marketplace, c) == WantedLater(rows, marketplace, c);
    }
  }

  /** It takes them up latest first. */
  lemma LatestFirst(rows: Rows, marketplace: Option<string>, limit: nat, i: nat, j: nat)
    requires i < j < |MissingMetadata(rows, marketplace, limit)|
    ensures var ids := MissingMetadata(rows, marketplace, limit);
            ids[i] in rows && ids[j] in rows && FoundLater(rows, ids[i], ids[j])
  {
    var ids := MissingMetadata(rows, marketplace, limit);
    BatchIsInOrder(rows, marketplace, limit, j, ids[i]);
    assert ids[..j][i] == ids[i];
  }

  lemma WantedIff(rows: Rows, marketplace: Option<string>)
    ensures forall id :: id in Candidates(rows, marketplace) <==> Wanted(rows, marketplace, id)
  {
  }

  // -------------------------------------------------------------- outcome

  /** By the row's turn its marketplace has refused the credentials. */
  ghost predicate CutOff(world: World, rows: Rows, marketplace: Option<string>, c: nat)
    requires c in rows
  {
    exists y | y in rows ::
      && Wanted(rows, marketplace, y) && FoundLater(rows, y, c) && rows[y].marketplace == rows[c].marketplace
      && world.connectors(rows[y].marketplace) == Ready
      && world.answers(Query(rows[y].marketplace, rows[y].externalId)) == AuthError
  }

  /** What is told of a row that was taken up. */
  ghost predicate Tells(world: World, row: Row, cutOff: bool, outcome: Outcome) {
    if cutOff then outcome == BreakerSkipped
    else
      match world.connectors(row.marketplace)
      case NoConnector => outcome == WasUnsupported
      case NoLookup => outcome == WasUnsupported
      case Unconfigured => outcome == WasUnconfigured
      case Ready =>
        match world.answers(Query(row.marketplace, row.externalId))
        case LookupUnsupported => outcome == WasUnsupported
        case Gone => outcome == WasNotFound
        case Fresh(offered) =>
          if exists f: Field :: f !in row.metadata && f in offered then
            outcome.WasEnriched? && forall f :: f in outcome.filled <==> f !in row.metadata && f in offered
          else outcome == HadNoData
        case error => outcome == HasFailed(error)
  }

  /** What becomes of it in the table: nothing if it was not asked for, else the
      status that answers to the reply, and what was missing and now is known. */
  ghost predicate Becomes(world: World, row: Row, cutOff: bool, after: Row) {
    && after.marketplace == row.marketplace && after.externalId == row.externalId && after.discoveredAt == row.discoveredAt
    && if cutOff || world.connectors(row.marketplace) == Unconfigured then after == row
       else if world.connectors(row.marketplace) != Ready then after.status == Unsupported && after.metadata == row.metadata
       else
         match world.answers(Query(row.marketplace, row.externalId))
         case LookupUnsupported => after.status == Unsupported && after.metadata == row.metadata
         case Gone => after.status == NotFound && after.metadata == row.metadata
         case Fresh(offered) =>
           && after.status == (if exists f: Field :: f !in row.metadata && f in offered then Enriched else NoData)
           && (forall f: Field ::
                 && (f in after.metadata <==> f in row.metadata || f in offered)
                 && (f in row.metadata ==> after.metadata[f] == row.metadata[f])
                 && (f !in row.metadata && f in offered ==> after.metadata[f] == offered[f]))
         case _ => after.status == Failed && after.metadata == row.metadata
  }

  lemma FillableIs(has: Metadata, offered: Metadata)
    ensures forall f :: f in Fillable(has, offered, FIELDS) <==> f !in has && f in offered
    ensures Fillable(has, offered, FIELDS) == [] <==> !exists f: Field :: f !in has && f in offered
  {
    hide Fillable;
    FillableHolds(has, offered, FIELDS);
    forall f: Field
      ensures f in FIELDS
    {
      EveryField(f);
    }
    if Fillable(has, offered, FIELDS) != [] {
      assert Fillable(has, offered, FIELDS)[0] in Fillable(has, offered, FIELDS);
    }
  }

  lemma OutcomeTells(world: World, row: Row, authFailed: set<string>)
    ensures Tells(world, row, row.marketplace in authFailed, OutcomeOf(world, row, authFailed))
  {
    hide Fillable;
    var answer := world.answers(Query(row.marketplace, row.externalId));
    if answer.Fresh? {
      FillableIs(row.metadata, answer.metadata);
    }
  }

  lemma UpdateBecomes(world: World, row: Row, authFailed: set<string>)
    ensures Becomes(world, row, row.marketplace in authFailed, Updated(world, row, OutcomeOf(world, row, authFailed)))
  {
    hide Fillable;
    var answer := world.answers(Query(row.marketplace, row.externalId));
    if answer.Fresh? {
      FillableIs(row.metadata, answer.metadata);
    }
  }

  /** A row is written in its turn and keeps what was written. */
  lemma {:induction false} WrittenInItsTurn(world: World, rows: Rows, ids: seq<nat>, n: nat, j: nat)
    requires j < n <= |ids| && Distinct(ids) && forall id | id in ids :: id in rows
    ensures After(world, false, rows, ids, n).rows[ids[j]] ==
            Updated(world, rows[ids[j]], OutcomeOf(world, rows[ids[j]], After(world, false, rows, ids, j).authFailed))
  {
    hide OutcomeOf, Updated;
    if j < n - 1 {
      WrittenInItsTurn(world, rows, ids, n - 1, j);
    } else {
      DistinctPrefix(ids, j);
      RowsKeepUntilTheirTurn(world, false, rows, ids, j, ids[j]);
    }
  }

  lemma SelectedBefore(rows: Rows, marketplace: Option<string>, limit: nat, j: nat, y: nat)
    requires j < |MissingMetadata(rows, marketplace, limit)|
    ensures var ids := MissingMetadata(rows, marketplace, limit);
            ids[j] in rows && (y in ids[..j] <==> y in rows && Wanted(rows, marketplace, y) && FoundLater(rows, y, ids[j]))
  {
    BatchesAreRows(rows, marketplace, limit);
    BatchIsInOrder(rows, marketplace, limit, j, y);
    WantedIff(rows, marketplace);
  }

  lemma CutOffIff(world: World, rows: Rows, marketplace: Option<string>, limit: nat, j: nat)
    requires j < |MissingMetadata(rows, marketplace, limit)|
    ensures var ids := MissingMetadata(rows, marketplace, limit);
            ids[j] in rows &&
            (rows[ids[j]].marketplace in After(world, false, rows, ids, j).authFailed <==> CutOff(world, rows, marketplace, ids[j]))
  {
    hide MissingMetadata, TripsBreaker, Wanted, FoundLater;
    var ids := MissingMetadata(rows, marketplace, limit);
    BatchesAreRows(rows, marketplace, limit);
    BrokenOffSoFar(world, rows, ids, j, rows[ids[j]].marketplace);
    forall y: nat
      ensures y in ids[..j] <==> y in rows && Wanted(rows, marketplace, y) && FoundLater(rows, y, ids[j])
    {
      SelectedBefore(rows, marketplace, limit, j, y);
    }
    forall y | y in rows
      ensures TripsBreaker(world, rows[y]) <==>
              world.connectors(rows[y].marketplace) == Ready && world.answers(Query(rows[y].marketplace, rows[y].externalId)) == AuthError
    {
      TripsIff(world, rows[y]);
    }
  }

  lemma TripsIff(world: World, row: Row)
    ensures TripsBreaker(world, row) <==>
            world.connectors(row.marketplace) == Ready && world.answers(Query(row.marketplace, row.externalId)) == AuthError
  {
  }

  /** An apply run, row by row: a row that is not taken up stays as it is; one that
      is gets the status and the fields its marketplace's reply calls for, and a
      row that is cut off or cannot be asked for stays for a later run. */
  lemma EveryRowAfterARun(world: World, rows: Rows, marketplace: Option<string>, limit: nat, c: nat)
    requires c in rows
    ensures var after := Ran(world, false, rows, marketplace, limit).rows;
            c in after &&
            if Wanted(rows, marketplace, c) && |WantedLater(rows, marketplace, c)| < limit
            then Becomes(world, rows[c], CutOff(world, rows, marketplace, c), after[c])
            else after[c] == rows[c]
  {
    hide MissingMetadata, Wanted, WantedLater, Becomes, CutOff, OutcomeOf, Updated;
    var ids := MissingMetadata(rows, marketplace, limit);
    SelectionIs(rows, marketplace, limit, c);
    BatchesAreRows(rows, marketplace, limit);
    if c in ids {
      var j :| 0 <= j < |ids| && ids[j] == c;
      WrittenInItsTurn(world, rows, ids, |ids|, j);
      CutOffIff(world, rows, marketplace, limit, j);
      UpdateBecomes(world, rows[c], After(world, false, rows, ids, j).authFailed);
    } else {
      assert ids[..|ids|] == ids;
      RowsKeepUntilTheirTurn(world, false, rows, ids, |ids|, c);
    }
  }

  /** Its report, line by line: the rows taken up, in order, each with its outcome. */
  lemma EveryLineOfTheReport(world: World, rows: Rows, marketplace: Option<string>, limit: nat, j: nat)
    requires j < |MissingMetadata(rows, marketplace, limit)|
    ensures var ids, summary := MissingMetadata(rows, marketplace, limit), Ran(world, false, rows, marketplace, limit).summary;
            && ids[j] in rows && |summary.outcomes| == |ids| == summary.considered && !summary.dryRun
            && summary.outcomes[j].id == ids[j]
            && Tells(world, rows[ids[j]], CutOff(world, rows, marketplace, ids[j]), summary.outcomes[j].outcome)
  {
    hide MissingMetadata, Tells, CutOff, OutcomeOf, Step;
    var ids := MissingMetadata(rows, marketplace, limit);
    BatchesAreRows(rows, marketplace, limit);
    OutcomesSoFar(world, rows, ids, |ids|, j);
    CutOffIff(world, rows, marketplace, limit, j);
    OutcomeTells(world, rows[ids[j]], After(world, false, rows, ids, j).authFailed);
    CountersAddUpSoFar(world, false, rows, ids, |ids|);
    FlagStays(world, false, rows, ids, |ids|);
  }

  lemma {:induction false} FlagStays(world: World, dryRun: bool, rows: Rows, ids: seq<nat>, n: nat)
    requires n <= |ids| && forall id | id in ids :: id in rows
    ensures After(world, dryRun, rows, ids, n).summary.dryRun == dryRun
  {
    hide OutcomeOf, Updated, Noted;
    if n > 0 {
      FlagStays(world, dryRun, rows, ids, n - 1);
    }
  }

  // ------------------------------------------------------------- counters

  /** The lines of a report of one kind. */
  ghost function Lines(outcomes: seq<Line>, kind: Outcome -> bool): set<int> {
    set j | 0 <= j < |outcomes| && kind(outcomes[j].outcome)
  }

  lemma LinesAppend(outcomes: seq<Line>, line: Line, kind: Outcome -> bool)
    ensures |Lines(outcomes + [line], kind)| == |Lines(outcomes, kind)| + if kind(line.outcome) then 1 else 0
  {
    assert Lines(outcomes + [line], kind) == Lines(outcomes, kind) + if kind(line.outcome) then {|outcomes|} else {};
  }

  const ENRICHED := (o: Outcome) => o.WasEnriched?
  const NO_DATA := (o: Outcome) => o.HadNoData?
  const NOT_FOUND := (o: Outcome) => o.WasNotFound?
  const UNSUPPORTED := (o: Outcome) => o.WasUnsupported?
  const UNCONFIGURED := (o: Outcome) => o.WasUnconfigured?
  const FAILED := (o: Outcome) => o.HasFailed? || o.BreakerSkipped?

  /** Each counter counts the lines of its own kind; a row skipped by the breaker
      counts as failed. */
  ghost predicate Tallied(s: Summary) {
    && s.enriched == |Lines(s.outcomes, ENRICHED)|
    && s.noData == |Lines(s.outcomes, NO_DATA)|
    && s.notFound == |Lines(s.outcomes, NOT_FOUND)|
    && s.unsupported == |Lines(s.outcomes, UNSUPPORTED)|
    && s.unconfigured == |Lines(s.outcomes, UNCONFIGURED)|
    && s.failed == |Lines(s.outcomes, FAILED)|
  }

  lemma CountedIsTallied(summary: Summary, id: nat, outcome: Outcome)
    requires Tallied(summary)
    ensures Tallied(Counted(summary, id, outcome))
  {
    hide Lines, CountFilled;
    var line := Line(id, outcome);
    LinesAppend(summary.outcomes, line, ENRICHED);
    LinesAppend(summary.outcomes, line, NO_DATA);
    LinesAppend(summary.outcomes, line, NOT_FOUND);
    LinesAppend(summary.outcomes, line, UNSUPPORTED);
    LinesAppend(summary.outcomes, line, UNCONFIGURED);
    LinesAppend(summary.outcomes, line, FAILED);
  }

  lemma StartIsTallied(rows: Rows, dryRun: bool, considered: nat)
    ensures Tallied(Start(rows, dryRun, considered).summary)
  {
    assert forall kind: Outcome -> bool :: Lines([], kind) == {};
  }

  lemma SkippedDoesNotCount(summary: Summary, skipped: map<string, Connector>)
    requires Tallied(summary)
    ensures Tallied(summary.(skipped := skipped))
  {
  }

  lemma {:induction false} TalliedSoFar(world: World, dryRun: bool, rows: Rows, ids: seq<nat>, n: nat)
    requires n <= |ids| && forall id | id in ids :: id in rows
    ensures Tallied(After(world, dryRun, rows, ids, n).summary)
  {
    hide OutcomeOf, Counted, Tallied, Updated, Noted;
    if n == 0 {
      StartIsTallied(rows, dryRun, |ids|);
    } else {
      var p, id := After(world, dryRun, rows, ids, n - 1), ids[n - 1];
      TalliedSoFar(world, dryRun, rows, ids, n - 1);
      var counted := Counted(p.summary, id, OutcomeOf(world, p.rows[id], p.authFailed));
      CountedIsTallied(p.summary, id, OutcomeOf(world, p.rows[id], p.authFailed));
      SkippedDoesNotCount(counted, Noted(counted.skipped, world, p.rows[id].marketplace));
    }
  }

  lemma CountersCountLines(world: World, dryRun: bool, rows: Rows, marketplace: Option<string>, limit: nat)
    ensures Tallied(Ran(world, dryRun, rows, marketplace, limit).summary)
  {
    var ids := MissingMetadata(rows, marketplace, limit);
    TalliedSoFar(world, dryRun, rows, ids, |ids|);
  }

  // --------------------------------------------------------- filled fields

  ghost function Rank(f: Field): int {
    match f
    case Price => 0 case Currency => 1 case ImageUrl => 2 case Condition => 3
    case Location => 4 case Seller => 5 case SourceCreatedAt => 6
  }

  ghost predicate ByRank(fields: seq<Field>) {
    forall i, j | 0 <= i < j < |fields| :: Rank(fields[i]) < Rank(fields[j])
  }

  lemma {:induction false} FillableKeepsOrder(has: Metadata, offered: Metadata, fields: seq<Field>)
    requires ByRank(fields)
    ensures ByRank(Fillable(has, offered, fields))
  {
    hide Rank;
    if fields != [] {
      var n := |fields| - 1;
      FillableKeepsOrder(has, offered, fields[..n]);
      FillableHolds(has, offered, fields[..n]);
      forall f | f in Fillable(has, offered, fields[..n])
        ensures Rank(f) < Rank(fields[n])
      {
        var i :| 0 <= i < n && fields[..n][i] == f;
        assert fields[i] == f;
      }
    }
  }

  /** The fields of a line come once each, in the order of the columns. */
  lemma FilledInOrder(world: World, row: Row, authFailed: set<string>)
    ensures var outcome := OutcomeOf(world, row, authFailed); outcome.WasEnriched? ==> ByRank(outcome.filled)
  {
    hide Fillable;
    var answer := world.answers(Query(row.marketplace, row.externalId));
    if answer.Fresh? {
      FillableKeepsOrder(row.metadata, answer.metadata, FIELDS);
    }
  }

  ghost predicate Fills(outcome: Outcome, f: Field) {
    outcome.WasEnriched? && f in outcome.filled
  }

  lemma {:induction false} CountFilledAdds(counts: map<Field, nat>, filled: seq<Field>, f: Field)
    requires ByRank(filled)
    ensures var after := CountFilled(counts, filled);
            && (f in after <==> f in counts || f in filled)
            && (f in after ==> after[f] == (if f in counts then counts[f] else 0) + if f in filled then 1 else 0)
  {
    hide Rank;
    if filled != [] {
      var n := |filled| - 1;
      CountFilledAdds(counts, filled[..n], f);
      assert filled == filled[..n] + [filled[n]];
      assert filled[n] !in filled[..n];
    }
  }

  /** The lines in which the field was filled. */
  ghost function FilledLines(outcomes: seq<Line>, f: Field): set<int> {
    set j | 0 <= j < |outcomes| && Fills(outcomes[j].outcome, f)
  }

  lemma FilledLinesAppend(outcomes: seq<Line>, line: Line, f: Field)
    ensures Fills(line.outcome, f) ==>
              FilledLines(outcomes + [line], f) != {} && |FilledLines(outcomes + [line], f)| == |FilledLines(outcomes, f)| + 1
    ensures !Fills(line.outcome, f) ==> FilledLines(outcomes + [line], f) == FilledLines(outcomes, f)
  {
    if Fills(line.outcome, f) {
      assert FilledLines(outcomes + [line], f) == FilledLines(outcomes, f) + {|outcomes|};
    } else {
      assert FilledLines(outcomes + [line], f) == FilledLines(outcomes, f);
    }
  }

  ghost predicate FillsCounted(s: Summary, f: Field) {
    && (f in s.fillCounts <==> FilledLines(s.outcomes, f) != {})
    && (f in s.fillCounts ==> s.fillCounts[f] == |FilledLines(s.outcomes, f)|)
  }

  lemma CountedFills(s: Summary, id: nat, outcome: Outcome, f: Field)
    requires FillsCounted(s, f) && (outcome.WasEnriched? ==> ByRank(outcome.filled))
    ensures FillsCounted(Counted(s, id, outcome), f)
  {
    hide CountFilled, ByRank, FilledLines;
    FilledLinesAppend(s.outcomes, Line(id, outcome), f);
    if outcome.WasEnriched? {
      CountFilledAdds(s.fillCounts, outcome.filled, f);
    }
  }

  lemma {:induction false} FillsCountedSoFar(world: World, dryRun: bool, rows: Rows, ids: seq<nat>, n: nat, f: Field)
    requires n <= |ids| && forall id | id in ids :: id in rows
    ensures FillsCounted(After(world, dryRun, rows, ids, n).summary, f)
  {
    hide OutcomeOf, Counted, FillsCounted, Updated, Noted, ByRank;
    if n == 0 {
      StartCountsNothing(rows, dryRun, |ids|, f);
    } else {
      var p, id := After(world, dryRun, rows, ids, n - 1), ids[n - 1];
      FillsCountedSoFar(world, dryRun, rows, ids, n - 1, f);
      FilledInOrder(world, p.rows[id], p.authFailed);
      CountedFills(p.summary, id, OutcomeOf(world, p.rows[id], p.authFailed), f);
      var counted := Counted(p.summary, id, OutcomeOf(world, p.rows[id], p.authFailed));
      SkippingFillsNothing(counted, Noted(counted.skipped, world, p.rows[id].marketplace), f);
    }
  }

  lemma StartCountsNothing(rows: Rows, dryRun: bool, considered: nat, f: Field)
    ensures FillsCounted(Start(rows, dryRun, considered).summary, f)
  {
  }

  lemma SkippingFillsNothing(s: Summary, skipped: map<string, Connector>, f: Field)
    requires FillsCounted(s, f)
    ensures FillsCounted(s.(skipped := skipped), f)
  {
  }

  /** For every field, the report counts the rows in which it was filled. */
  lemma FillCountsCountRows(world: World, dryRun: bool, rows: Rows, marketplace: Option<string>, limit: nat, f: Field)
    ensures FillsCounted(Ran(world, dryRun, rows, marketplace, limit).summary, f)
  {
    var ids := MissingMetadata(rows, marketplace, limit);
    FillsCountedSoFar(world, dryRun, rows, ids, |ids|, f);
  }

  // ------------------------------------------- requests and skipped markets

  ghost predicate Comes(rows: Rows, ids: seq<nat>, n: nat, mp: string)
    requires n <= |ids|
  {
    exists j | 0 <= j < n :: ids[j] in rows && rows[ids[j]].marketplace == mp
  }

  ghost predicate OnlyReadyFail(world: World, p: Progress) {
    forall mp | mp in p.authFailed :: world.connectors(mp) == Ready
  }

  lemma StepKeepsReady(world: World, p: Progress, id: nat)
    requires id in p.rows && OnlyReadyFail(world, p)
    ensures OnlyReadyFail(world, Step(world, false, p, id))
  {
  }

  lemma StepSkips(world: World, p: Progress, id: nat)
    requires id in p.rows && OnlyReadyFail(world, p)
    ensures var mp := p.rows[id].marketplace;
            Step(world, false, p, id).summary.skipped ==
            if world.connectors(mp) == Ready then p.summary.skipped else p.summary.skipped[mp := world.connectors(mp)]
  {
  }

  lemma {:induction false} SkippedSoFar(world: World, rows: Rows, ids: seq<nat>, n: nat, mp: string)
    requires n <= |ids| && Distinct(ids) && forall id | id in ids :: id in rows
    ensures var p := After(world, false, rows, ids, n);
            && OnlyReadyFail(world, p)
            && (mp in p.summary.skipped <==> world.connectors(mp) != Ready && Comes(rows, ids, n, mp))
            && (mp in p.summary.skipped ==> p.summary.skipped[mp] == world.connectors(mp))
  {
    hide Step, OnlyReadyFail;
    if n == 0 {
      StartIsReady(world, rows, |ids|);
    } else {
      var p, id := After(world, false, rows, ids, n - 1), ids[n - 1];
      SkippedSoFar(world, rows, ids, n - 1, mp);
      DistinctPrefix(ids, n - 1);
      RowsKeepUntilTheirTurn(world, false, rows, ids, n - 1, id);
      StepKeepsReady(world, p, id);
      StepSkips(world, p, id);
    }
  }

  lemma StartIsReady(world: World, rows: Rows, considered: nat)
    ensures OnlyReadyFail(world, Start(rows, false, considered))
  {
  }

  /** The report names the marketplaces of the rows taken up that could not be
      asked, each with its reason. */
  lemma SkippedMarketsAreTold(world: World, rows: Rows, marketplace: Option<string>, limit: nat, mp: string)
    ensures var ids, skipped := MissingMetadata(rows, marketplace, limit), Ran(world, false, rows, marketplace, limit).summary.skipped;
            && (mp in skipped <==> world.connectors(mp) != Ready && exists c | c in ids :: c in rows && rows[c].marketplace == mp)
            && (mp in skipped ==> skipped[mp] == world.connectors(mp))
  {
    hide MissingMetadata, OnlyReadyFail;
    var ids := MissingMetadata(rows, marketplace, limit);
    BatchesAreRows(rows, marketplace, limit);
    SkippedSoFar(world, rows, ids, |ids|, mp);
    if c :| c in ids && c in rows && rows[c].marketplace == mp {
      var j :| 0 <= j < |ids| && ids[j] == c;
      assert Comes(rows, ids, |ids|, mp);
    }
  }

  ghost predicate AskedAt(world: World, rows: Rows, ids: seq<nat>, j: int, q: Query)
    requires forall id | id in ids :: id in rows
  {
    && 0 <= j < |ids| && world.connectors(rows[ids[j]].marketplace) == Ready
    && rows[ids[j]].marketplace !in After(world, false, rows, ids, j).authFailed
    && q == Query(rows[ids[j]].marketplace, rows[ids[j]].externalId)
  }

  lemma StepAsks(world: World, p: Progress, id: nat)
    requires id in p.rows
    ensures var row := p.rows[id];
            Step(world, false, p, id).asked == p.asked +
            if world.connectors(row.marketplace) == Ready && row.marketplace !in p.authFailed
            then [Query(row.marketplace, row.externalId)] else []
  {
  }

  lemma AskedAtIff(world: World, rows: Rows, ids: seq<nat>, n: nat, q: Query)
    requires n < |ids| && forall id | id in ids :: id in rows
    ensures AskedAt(world, rows, ids, n, q) <==>
            var row := rows[ids[n]];
            && world.connectors(row.marketplace) == Ready
            && row.marketplace !in After(world, false, rows, ids, n).authFailed
            && q == Query(row.marketplace, row.externalId)
  {
  }

  lemma {:induction false} AskedSoFar(world: World, rows: Rows, ids: seq<nat>, n: nat, q: Query)
    requires n <= |ids| && Distinct(ids) && forall id | id in ids :: id in rows
    ensures q in After(world, false, rows, ids, n).asked <==> exists j | 0 <= j < n :: AskedAt(world, rows, ids, j, q)
  {
    hide Step, AskedAt;
    if n > 0 {
      var p, id := After(world, false, rows, ids, n - 1), ids[n - 1];
      AskedSoFar(world, rows, ids, n - 1, q);
      DistinctPrefix(ids, n - 1);
      RowsKeepUntilTheirTurn(world, false, rows, ids, n - 1, id);
      StepAsks(world, p, id);
      AskedAtIff(world, rows, ids, n - 1, q);
    }
  }

  /** A run asks for the rows it takes up, if their marketplace can be asked and
      has not cut it off, and for nothing else. */
  lemma AskedForIff(world: World, rows: Rows, marketplace: Option<string>, limit: nat, q: Query)
    ensures q in Ran(world, false, rows, marketplace, limit).asked <==>
            exists c | c in MissingMetadata(rows, marketplace, limit) ::
              && c in rows && world.connectors(rows[c].marketplace) == Ready && !CutOff(world, rows, marketplace, c)
              && q == Query(rows[c].marketplace, rows[c].externalId)
  {
    hide MissingMetadata, CutOff;
    var ids := MissingMetadata(rows, marketplace, limit);
    BatchesAreRows(rows, marketplace, limit);
    AskedSoFar(world, rows, ids, |ids|, q);
    forall j | 0 <= j < |ids|
      ensures AskedAt(world, rows, ids, j, q) <==>
              world.connectors(rows[ids[j]].marketplace) == Ready && !CutOff(world, rows, marketplace, ids[j])
              && q == Query(rows[ids[j]].marketplace, rows[ids[j]].externalId)
    {
      CutOffIff(world, rows, marketplace, limit, j);
    }
  }
}
