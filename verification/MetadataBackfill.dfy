/** Filling in metadata of listings found long ago, by asking their marketplaces
    again. `rows` is `discovered_listings`; a column missing from `metadata` is
    null. The marketplaces answer as a fixed function of marketplace and id. */
module MetadataBackfill {

  import opened Sql
  import opened OrderBy

  datatype Field = Price | Currency | ImageUrl | Condition | Location | Seller | SourceCreatedAt

  const FIELDS: seq<Field> := [Price, Currency, ImageUrl, Condition, Location, Seller, SourceCreatedAt]

  /** `metadata_backfill_status`; `Pending` is null. */
  datatype Status = Pending | Failed | Enriched | NoData | NotFound | Unsupported {
    predicate Terminal() {
      !Pending? && !Failed?
    }
  }

  type Metadata = map<Field, string>

  datatype Row = Row(marketplace: string, externalId: string, discoveredAt: int, metadata: Metadata, status: Status)

  type Rows = map<nat, Row>

  /** Why a marketplace is skipped, if it is. */
  datatype Connector = NoConnector | NoLookup | Unconfigured | Ready

  datatype Query = Query(marketplace: string, externalId: string)

  datatype Answer = Fresh(metadata: Metadata) | Gone | LookupUnsupported | AuthError | ConnectorError | UnexpectedError

  datatype World = World(connectors: string -> Connector, answers: Query -> Answer)

  /** `BackfillRowOutcome`; `error` is whether it carries one. */
  datatype Outcome =
    | WasEnriched(filled: seq<Field>)
    | HadNoData
    | WasNotFound
    | WasUnsupported
    | WasUnconfigured
    | HasFailed(answer: Answer)
    | BreakerSkipped
  {
    /** Whether it gives the row a terminal status. */
    predicate Settling() {
      !WasUnconfigured? && !HasFailed? && !BreakerSkipped?
    }
  }

  datatype Line = Line(id: nat, outcome: Outcome)

  datatype Summary = Summary(
    dryRun: bool,
    considered: nat,
    enriched: nat,
    noData: nat,
    notFound: nat,
    failed: nat,
    unsupported: nat,
    unconfigured: nat,
    fillCounts: map<Field, nat>,
    skipped: map<string, Connector>,
    outcomes: seq<Line>)

  // ----------------------------------------------------------- candidates

  predicate Eligible(row: Row) {
    !row.status.Terminal() && exists f :: f !in row.metadata
  }

  function Candidates(rows: Rows, marketplace: Option<string>): set<nat> {
    set id | id in rows && Eligible(rows[id]) && (marketplace.None? || rows[id].marketplace == marketplace.value)
  }

  /** `ORDER BY first_discovered_at DESC, id DESC`. */
  function NewestFirst(rows: Rows): Before {
    (a: nat, b: nat) =>
      a in rows && b in rows
      && (rows[a].discoveredAt > rows[b].discoveredAt || (rows[a].discoveredAt == rows[b].discoveredAt && a > b))
  }

  lemma NewestFirstIsStrict(rows: Rows, pool: set<nat>)
    requires pool <= rows.Keys
    ensures StrictTotal(NewestFirst(rows), pool)
  {
  }

  /** `list_missing_metadata`. */
  ghost function MissingMetadata(rows: Rows, marketplace: Option<string>, limit: nat): (ids: seq<nat>)
    ensures |ids| == if limit < |Candidates(rows, marketplace)| then limit else |Candidates(rows, marketplace)|
    ensures Distinct(ids)
    ensures forall id | id in ids :: id in Candidates(rows, marketplace)
  {
    var pool := Candidates(rows, marketplace);
    NewestFirstIsStrict(rows, pool);
    var all := Ordered(NewestFirst(rows), pool);
    SortedIsDistinct(NewestFirst(rows), all);
    var ids := all[..if limit < |pool| then limit else |pool|];
    assert forall id | id in ids :: id in Elements(all);
    ids
  }

  // ------------------------------------------------------------- one row

  /** The fields that are null in the row and not in the answer, in column order. */
  function Fillable(has: Metadata, offered: Metadata, fields: seq<Field>): seq<Field> {
    if fields == [] then []
    else
      var f := fields[|fields| - 1];
      Fillable(has, offered, fields[..|fields| - 1]) + if f !in has && f in offered then [f] else []
  }

  /** What the row's marketplace and its answer lead to. */
  function OutcomeOf(world: World, row: Row, authFailed: set<string>): Outcome {
    if row.marketplace in authFailed then BreakerSkipped
    else
      match world.connectors(row.marketplace)
      case NoConnector => WasUnsupported
      case NoLookup => WasUnsupported
      case Unconfigured => WasUnconfigured
      case Ready =>
        match world.answers(Query(row.marketplace, row.externalId))
        case LookupUnsupported => WasUnsupported
        case Gone => WasNotFound
        case Fresh(metadata) =>
          var filled := Fillable(row.metadata, metadata, FIELDS);
          if filled == [] then HadNoData else WasEnriched(filled)
        case answer => HasFailed(answer)
  }

  /** The row as an apply run leaves it. */
  function Updated(world: World, row: Row, outcome: Outcome): Row {
    match outcome
    case WasEnriched(filled) =>
      var answer := world.answers(Query(row.marketplace, row.externalId));
      if answer.Fresh? then row.(metadata := answer.metadata + row.metadata, status := Enriched) else row
    case HadNoData => row.(status := NoData)
    case WasNotFound => row.(status := NotFound)
    case WasUnsupported => row.(status := Unsupported)
    case HasFailed(_) => row.(status := Failed)
    case WasUnconfigured => row
    case BreakerSkipped => row
  }

  function CountFilled(counts: map<Field, nat>, filled: seq<Field>): map<Field, nat> {
    if filled == [] then counts
    else
      var before, f := CountFilled(counts, filled[..|filled| - 1]), filled[|filled| - 1];
      before[f := 1 + if f in before then before[f] else 0]
  }

  function Counted(summary: Summary, id: nat, outcome: Outcome): Summary {
    var s := summary.(outcomes := summary.outcomes + [Line(id, outcome)]);
    match outcome
    case WasEnriched(filled) => s.(enriched := s.enriched + 1, fillCounts := CountFilled(s.fillCounts, filled))
    case HadNoData => s.(noData := s.noData + 1)
    case WasNotFound => s.(notFound := s.notFound + 1)
    case WasUnsupported => s.(unsupported := s.unsupported + 1)
    case WasUnconfigured => s.(unconfigured := s.unconfigured + 1)
    case HasFailed(_) => s.(failed := s.failed + 1)
    case BreakerSkipped => s.(failed := s.failed + 1)
  }

  /** Noted the first time a marketplace that is not broken off comes up. */
  function Noted(skipped: map<string, Connector>, world: World, marketplace: string): map<string, Connector> {
    if world.connectors(marketplace).Ready? then skipped else skipped[marketplace := world.connectors(marketplace)]
  }

  /** A run in progress; `asked` lists its requests. */
  datatype Progress = Progress(rows: Rows, summary: Summary, authFailed: set<string>, asked: seq<Query>)

  function Step(world: World, dryRun: bool, p: Progress, id: nat): Progress
    requires id in p.rows
  {
    var row := p.rows[id];
    var outcome := OutcomeOf(world, row, p.authFailed);
    var summary := Counted(p.summary, id, outcome);
    Progress(
      if dryRun then p.rows else p.rows[id := Updated(world, row, outcome)],
      if outcome.BreakerSkipped? then summary else summary.(skipped := Noted(summary.skipped, world, row.marketplace)),
      if outcome == HasFailed(AuthError) then p.authFailed + {row.marketplace} else p.authFailed,
      if outcome.BreakerSkipped? || !world.connectors(row.marketplace).Ready? then p.asked
      else p.asked + [Query(row.marketplace, row.externalId)])
  }

  function Start(rows: Rows, dryRun: bool, considered: nat): Progress {
    Progress(rows, Summary(dryRun, considered, 0, 0, 0, 0, 0, 0, map[], map[], []), {}, [])
  }

  function After(world: World, dryRun: bool, rows: Rows, ids: seq<nat>, n: nat): (p: Progress)
    requires n <= |ids| && forall id | id in ids :: id in rows
    ensures p.rows.Keys == rows.Keys
  {
    if n == 0 then Start(rows, dryRun, |ids|) else Step(world, dryRun, After(world, dryRun, rows, ids, n - 1), ids[n - 1])
  }

  /** The whole run. */
  ghost function Ran(world: World, dryRun: bool, rows: Rows, marketplace: Option<string>, limit: nat): Progress {
    var ids := MissingMetadata(rows, marketplace, limit);
    After(world, dryRun, rows, ids, |ids|)
  }

  // -------------------------------------------------------------- service

  /** Fills what is null, column by column, and lists it. */
  method FillIn(has: Metadata, offered: Metadata) returns (filled: seq<Field>, completed: Metadata)
    ensures filled == Fillable(has, offered, FIELDS)
    ensures completed == offered + has
  {
    filled, completed := [], has;
    NothingMerged(has, offered);
    for i := 0 to |FIELDS|
      invariant filled == Fillable(has, offered, FIELDS[..i])
      invariant completed == Merged(has, offered, FIELDS[..i])
    {
      assert FIELDS[..i + 1][..i] == FIELDS[..i];
      MergedOneMore(has, offered, i);
      if FIELDS[i] !in completed && FIELDS[i] in offered {
        filled := filled + [FIELDS[i]];
        completed := completed[FIELDS[i] := offered[FIELDS[i]]];
      }
    }
    assert FIELDS[..|FIELDS|] == FIELDS;
    AllFieldsMerged(has, offered);
  }

  class Backfill {
    var rows: Rows

    constructor (rows: Rows)
      ensures this.rows == rows
    {
      this.rows := rows;
    }

    method ListMissingMetadata(marketplace: Option<string>, limit: nat) returns (ids: seq<nat>)
      ensures ids == MissingMetadata(rows, marketplace, limit)
    {
      var pool := Candidates(rows, marketplace);
      NewestFirstIsStrict(rows, pool);
      ids := Select(NewestFirst(rows), pool, limit);
    }

    /** `_apply_enrichment`: in a dry run it only tells. */
    method ApplyEnrichment(id: nat, metadata: Metadata, dryRun: bool) returns (filled: seq<Field>)
      requires id in rows
      modifies this
      ensures filled == Fillable(old(rows)[id].metadata, metadata, FIELDS)
      ensures rows == if dryRun then old(rows) else old(rows)[id := old(rows)[id].(metadata := metadata + old(rows)[id].metadata)]
    {
      var completed;
      filled, completed := FillIn(rows[id].metadata, metadata);
      if !dryRun {
        rows := rows[id := rows[id].(metadata := completed)];
      }
    }

    /** The single place a status is written. */
    method PersistStatus(id: nat, status: Status, dryRun: bool)
      requires id in rows
      modifies this
      ensures rows == if dryRun then old(rows) else old(rows)[id := old(rows)[id].(status := status)]
    {
      if !dryRun {
        rows := rows[id := rows[id].(status := status)];
      }
    }

    /** One lookup, and what it does to the row. */
    method LookUp(world: World, id: nat, dryRun: bool) returns (outcome: Outcome)
      requires id in rows && world.connectors(rows[id].marketplace).Ready?
      modifies this
      ensures outcome == OutcomeOf(world, old(rows)[id], {})
      ensures rows == if dryRun then old(rows) else old(rows)[id := Updated(world, old(rows)[id], outcome)]
    {
      match world.answers(Query(rows[id].marketplace, rows[id].externalId))
      case LookupUnsupported =>
        outcome := WasUnsupported;
        PersistStatus(id, Unsupported, dryRun);
      case Gone =>
        outcome := WasNotFound;
        PersistStatus(id, NotFound, dryRun);
      case Fresh(metadata) =>
        NothingFilled(rows[id].metadata, metadata);
        var filled := ApplyEnrichment(id, metadata, dryRun);
        if filled != [] {
          outcome := WasEnriched(filled);
          PersistStatus(id, Enriched, dryRun);
        } else {
          outcome := HadNoData;
          PersistStatus(id, NoData, dryRun);
        }
      case answer =>
        outcome := HasFailed(answer);
        PersistStatus(id, Failed, dryRun);
    }

    /** The body of the loop; `p` is the progress so far. */
    method ProcessRow(world: World, dryRun: bool, id: nat, summary: Summary, authFailed: set<string>, ghost p: Progress)
      returns (noted: Summary, nowFailed: set<string>)
      requires id in rows && p.rows == rows && p.summary == summary && p.authFailed == authFailed
      modifies this
      ensures var q := Step(world, dryRun, p, id); rows == q.rows && noted == q.summary && nowFailed == q.authFailed
    {
      noted, nowFailed := summary, authFailed;
      var mp := rows[id].marketplace;
      assert rows == rows[id := rows[id]];
      if mp in authFailed {
        noted := Counted(noted, id, BreakerSkipped);
        return;
      }
      noted := noted.(skipped := Noted(noted.skipped, world, mp));
      match world.connectors(mp)
      case Unconfigured =>
        noted := Counted(noted, id, WasUnconfigured);
      case Ready =>
        var outcome := LookUp(world, id, dryRun);
        if outcome == HasFailed(AuthError) {
          nowFailed := nowFailed + {mp};
        }
        noted := Counted(noted, id, outcome);
      case _ =>
        noted := Counted(noted, id, WasUnsupported);
        PersistStatus(id, Unsupported, dryRun);
    }

    method ProcessAll(world: World, dryRun: bool, candidates: seq<nat>) returns (summary: Summary, ghost p: Progress)
      requires forall id | id in candidates :: id in rows
      modifies this
      ensures p == After(world, dryRun, old(rows), candidates, |candidates|)
      ensures rows == p.rows && summary == p.summary
    {
      p := Start(rows, dryRun, |candidates|);
      summary := Start(rows, dryRun, |candidates|).summary;
      var authFailed: set<string> := {};
      for i := 0 to |candidates|
        invariant p == After(world, dryRun, old(rows), candidates, i)
        invariant rows == p.rows && summary == p.summary && authFailed == p.authFailed
      {
        summary, authFailed := ProcessRow(world, dryRun, candidates[i], summary, authFailed, p);
        p := Step(world, dryRun, p, candidates[i]);
      }
    }

    method RunBackfill(world: World, marketplace: Option<string>, limit: nat, dryRun: bool) returns (summary: Summary)
      modifies this
      ensures rows == Ran(world, dryRun, old(rows), marketplace, limit).rows
      ensures summary == Ran(world, dryRun, old(rows), marketplace, limit).summary
    {
      var candidates := ListMissingMetadata(marketplace, limit);
      ghost var p;
      summary, p := ProcessAll(world, dryRun, candidates);
    }
  }

  /** `has` completed from `offered` on the given fields. */
  function Merged(has: Metadata, offered: Metadata, fields: seq<Field>): Metadata {
    has + map f | f in fields && f !in has && f in offered :: offered[f]
  }

  lemma NothingMerged(has: Metadata, offered: Metadata)
    ensures Merged(has, offered, FIELDS[..0]) == has
  {
  }

  lemma MergedAppend(has: Metadata, offered: Metadata, fields: seq<Field>, f: Field)
    requires f !in fields
    ensures Merged(has, offered, fields + [f]) ==
            if f !in has && f in offered then Merged(has, offered, fields)[f := offered[f]] else Merged(has, offered, fields)
  {
  }

  lemma FieldsAreDistinct(i: nat)
    requires i < |FIELDS|
    ensures FIELDS[i] !in FIELDS[..i] && FIELDS[..i + 1] == FIELDS[..i] + [FIELDS[i]]
  {
  }

  lemma MergedOneMore(has: Metadata, offered: Metadata, i: nat)
    requires i < |FIELDS|
    ensures FIELDS[i] !in FIELDS[..i]
    ensures Merged(has, offered, FIELDS[..i + 1]) ==
            if FIELDS[i] !in has && FIELDS[i] in offered then Merged(has, offered, FIELDS[..i])[FIELDS[i] := offered[FIELDS[i]]]
            else Merged(has, offered, FIELDS[..i])
  {
    hide Merged;
    FieldsAreDistinct(i);
    MergedAppend(has, offered, FIELDS[..i], FIELDS[i]);
  }

  lemma EveryField(f: Field)
    ensures f in FIELDS
  {
    assert f == FIELDS[if f.Price? then 0 else if f.Currency? then 1 else if f.ImageUrl? then 2 else if f.Condition? then 3
                       else if f.Location? then 4 else if f.Seller? then 5 else 6];
  }

  lemma AllFieldsMerged(has: Metadata, offered: Metadata)
    ensures Merged(has, offered, FIELDS) == offered + has
  {
    forall f: Field
      ensures f in FIELDS
    {
      EveryField(f);
    }
  }

  lemma {:induction false} FillableHolds(has: Metadata, offered: Metadata, fields: seq<Field>)
    ensures forall f :: f in Fillable(has, offered, fields) <==> f in fields && f !in has && f in offered
  {
    if fields != [] {
      FillableHolds(has, offered, fields[..|fields| - 1]);
      assert fields == fields[..|fields| - 1] + [fields[|fields| - 1]];
    }
  }

  lemma NothingFilled(has: Metadata, offered: Metadata)
    ensures Fillable(has, offered, FIELDS) == [] ==> offered + has == has
  {
    FillableHolds(has, offered, FIELDS);
    forall f: Field
      ensures f in FIELDS
    {
      EveryField(f);
    }
  }

  // ----------------------------------------------------------------- laws

  function Settled(summary: Summary): nat {
    summary.enriched + summary.noData + summary.notFound + summary.unsupported
  }

  function Total(s: Summary): nat {
    Settled(s) + s.failed + s.unconfigured
  }

  lemma StepCountsOnce(world: World, dryRun: bool, p: Progress, id: nat)
    requires id in p.rows
    ensures var s := Step(world, dryRun, p, id).summary; Total(s) == Total(p.summary) + 1 && s.considered == p.summary.considered
  {
  }

  lemma {:induction false} CountersAddUpSoFar(world: World, dryRun: bool, rows: Rows, ids: seq<nat>, n: nat)
    requires n <= |ids| && forall id | id in ids :: id in rows
    ensures var s := After(world, dryRun, rows, ids, n).summary; Total(s) == n && s.considered == |ids|
  {
    if n > 0 {
      CountersAddUpSoFar(world, dryRun, rows, ids, n - 1);
      StepCountsOnce(world, dryRun, After(world, dryRun, rows, ids, n - 1), ids[n - 1]);
    }
  }

  /** Every candidate is counted in exactly one of the six counters. */
  lemma CountersAddUp(world: World, dryRun: bool, rows: Rows, marketplace: Option<string>, limit: nat)
    ensures var s := Ran(world, dryRun, rows, marketplace, limit).summary;
            s.enriched + s.noData + s.notFound + s.failed + s.unsupported + s.unconfigured == s.considered
  {
    var ids := MissingMetadata(rows, marketplace, limit);
    CountersAddUpSoFar(world, dryRun, rows, ids, |ids|);
  }

  /** A row is untouched until its turn, and touched in its turn only. */
  lemma {:induction false} RowsKeepUntilTheirTurn(world: World, dryRun: bool, rows: Rows, ids: seq<nat>, n: nat, id: nat)
    requires n <= |ids| && (forall i | i in ids :: i in rows)
    requires id in rows && id !in ids[..n]
    ensures After(world, dryRun, rows, ids, n).rows[id] == rows[id]
  {
    if n > 0 {
      assert ids[..n] == ids[..n - 1] + [ids[n - 1]];
      RowsKeepUntilTheirTurn(world, dryRun, rows, ids, n - 1, id);
    }
  }

  lemma DistinctPrefix(ids: seq<nat>, n: nat)
    requires Distinct(ids) && n < |ids|
    ensures ids[n] !in ids[..n]
  {
  }

  ghost predicate Agree(dry: Progress, apply: Progress) {
    && apply.summary.(dryRun := true) == dry.summary
    && apply.authFailed == dry.authFailed
    && apply.asked == dry.asked
  }

  lemma StepsAgree(world: World, dry: Progress, apply: Progress, id: nat)
    requires Agree(dry, apply) && id in dry.rows && id in apply.rows && dry.rows[id] == apply.rows[id]
    ensures Agree(Step(world, true, dry, id), Step(world, false, apply, id))
    ensures Step(world, true, dry, id).rows == dry.rows
  {
  }

  lemma StartsAgree(rows: Rows, considered: nat)
    ensures Agree(Start(rows, true, considered), Start(rows, false, considered))
  {
  }

  lemma {:induction false} DryRunPredictsSoFar(world: World, rows: Rows, ids: seq<nat>, n: nat)
    requires n <= |ids| && Distinct(ids) && forall id | id in ids :: id in rows
    ensures After(world, true, rows, ids, n).rows == rows
    ensures Agree(After(world, true, rows, ids, n), After(world, false, rows, ids, n))
  {
    hide Step, Agree;
    if n == 0 {
      StartsAgree(rows, |ids|);
    }
    if n > 0 {
      DryRunPredictsSoFar(world, rows, ids, n - 1);
      DistinctPrefix(ids, n - 1);
      RowsKeepUntilTheirTurn(world, false, rows, ids, n - 1, ids[n - 1]);
      StepsAgree(world, After(world, true, rows, ids, n - 1), After(world, false, rows, ids, n - 1), ids[n - 1]);
    }
  }

  /** A dry run writes nothing and reports, flag aside, the very summary that an
      apply run from the same rows would return; it asks the same questions. */
  lemma DryRunPredictsApply(world: World, rows: Rows, marketplace: Option<string>, limit: nat)
    ensures var dry, apply := Ran(world, true, rows, marketplace, limit), Ran(world, false, rows, marketplace, limit);
            && dry.rows == rows
            && dry.summary == apply.summary.(dryRun := true)
            && dry.asked == apply.asked
  {
    var ids := MissingMetadata(rows, marketplace, limit);
    DryRunPredictsSoFar(world, rows, ids, |ids|);
  }

  // -------------------------------------------------------------- breaker

  ghost predicate BreakerInv(world: World, p: Progress) {
    && (forall i | 0 <= i < |p.asked| && world.answers(p.asked[i]) == AuthError :: p.asked[i].marketplace in p.authFailed)
    && (forall i, j | 0 <= i < j < |p.asked| && p.asked[i].marketplace == p.asked[j].marketplace ::
          world.answers(p.asked[i]) != AuthError)
  }

  lemma StepKeepsBreaker(world: World, dryRun: bool, p: Progress, id: nat)
    requires id in p.rows && BreakerInv(world, p)
    ensures BreakerInv(world, Step(world, dryRun, p, id))
  {
    var row, q := p.rows[id], Step(world, dryRun, p, id);
    if q.asked != p.asked {
      var query := Query(row.marketplace, row.externalId);
      assert q.asked == p.asked + [query] && query.marketplace !in p.authFailed;
    }
  }

  lemma {:induction false} BreakerHoldsSoFar(world: World, dryRun: bool, rows: Rows, ids: seq<nat>, n: nat)
    requires n <= |ids| && forall id | id in ids :: id in rows
    ensures BreakerInv(world, After(world, dryRun, rows, ids, n))
  {
    if n > 0 {
      BreakerHoldsSoFar(world, dryRun, rows, ids, n - 1);
      StepKeepsBreaker(world, dryRun, After(world, dryRun, rows, ids, n - 1), ids[n - 1]);
    }
  }

  /** After an authentication failure a marketplace is not asked again in the
      same run. */
  lemma NoQueryAfterAuthError(world: World, dryRun: bool, rows: Rows, marketplace: Option<string>, limit: nat, i: nat, j: nat)
    requires var asked := Ran(world, dryRun, rows, marketplace, limit).asked;
             i < j < |asked| && world.answers(asked[i]) == AuthError
    ensures var asked := Ran(world, dryRun, rows, marketplace, limit).asked; asked[i].marketplace != asked[j].marketplace
  {
    var ids := MissingMetadata(rows, marketplace, limit);
    BreakerHoldsSoFar(world, dryRun, rows, ids, |ids|);
  }

  // ------------------------------------------------------------- progress

  /** Nothing that was known is lost, nothing but null is filled, and a row that
      is done stays as it is. */
  ghost predicate Improves(before: Rows, after: Rows) {
    && after.Keys == before.Keys
    && forall id | id in before ::
         && after[id].marketplace == before[id].marketplace && after[id].externalId == before[id].externalId
         && after[id].discoveredAt == before[id].discoveredAt
         && (forall f | f in before[id].metadata :: f in after[id].metadata && after[id].metadata[f] == before[id].metadata[f])
         && (before[id].status.Terminal() ==> after[id] == before[id])
  }

  lemma ImprovesTransitively(a: Rows, b: Rows, c: Rows)
    requires Improves(a, b) && Improves(b, c)
    ensures Improves(a, c)
  {
  }

  lemma StepImproves(world: World, dryRun: bool, p: Progress, id: nat)
    requires id in p.rows && !p.rows[id].status.Terminal()
    ensures Improves(p.rows, Step(world, dryRun, p, id).rows)
  {
  }

  lemma {:induction false} RunImprovesSoFar(world: World, dryRun: bool, rows: Rows, ids: seq<nat>, n: nat)
    requires n <= |ids| && Distinct(ids) && forall id | id in ids :: id in rows && !rows[id].status.Terminal()
    ensures Improves(rows, After(world, dryRun, rows, ids, n).rows)
  {
    hide Step;
    if n > 0 {
      var p := After(world, dryRun, rows, ids, n - 1);
      RunImprovesSoFar(world, dryRun, rows, ids, n - 1);
      DistinctPrefix(ids, n - 1);
      RowsKeepUntilTheirTurn(world, dryRun, rows, ids, n - 1, ids[n - 1]);
      StepImproves(world, dryRun, p, ids[n - 1]);
      ImprovesTransitively(rows, p.rows, Step(world, dryRun, p, ids[n - 1]).rows);
    }
  }

  datatype Command = Command(world: World, dryRun: bool, marketplace: Option<string>, limit: nat)

  /** Any runs one after another; the marketplaces may change in between. */
  ghost function Runs(rows: Rows, commands: seq<Command>): Rows {
    if commands == [] then rows
    else
      var c := commands[|commands| - 1];
      Ran(c.world, c.dryRun, Runs(rows, commands[..|commands| - 1]), c.marketplace, c.limit).rows
  }

  /** Over any sequence of runs a field only ever goes from null to a value, and
      a row that reached a terminal status is never touched again. */
  lemma {:induction false} RunsOnlyImprove(rows: Rows, commands: seq<Command>)
    ensures Improves(rows, Runs(rows, commands))
  {
    if commands != [] {
      var n, c := |commands| - 1, commands[|commands| - 1];
      var here := Runs(rows, commands[..n]);
      RunsOnlyImprove(rows, commands[..n]);
      var ids := MissingMetadata(here, c.marketplace, c.limit);
      RunImprovesSoFar(c.world, c.dryRun, here, ids, |ids|);
      ImprovesTransitively(rows, here, Runs(rows, commands));
    }
  }

  function SettledIds(outcomes: seq<Line>): set<nat> {
    set k | 0 <= k < |outcomes| && outcomes[k].outcome.Settling() :: outcomes[k].id
  }

  lemma SettledIdsAppend(outcomes: seq<Line>, line: Line)
    ensures SettledIds(outcomes + [line]) == SettledIds(outcomes) + if line.outcome.Settling() then {line.id} else {}
  {
    var more := outcomes + [line];
    assert more[|outcomes|] == line;
    assert forall k | 0 <= k < |outcomes| :: more[k] == outcomes[k];
  }

  lemma SettlingRemoves(world: World, p: Progress, id: nat, marketplace: Option<string>)
    requires id in Candidates(p.rows, marketplace)
    ensures var q, outcome := Step(world, false, p, id), OutcomeOf(world, p.rows[id], p.authFailed);
            Candidates(q.rows, marketplace) == Candidates(p.rows, marketplace) - (if outcome.Settling() then {id} else {})
  {
  }

  lemma StepSettles(world: World, p: Progress, id: nat, marketplace: Option<string>)
    requires id in Candidates(p.rows, marketplace)
    ensures var q, outcome := Step(world, false, p, id), OutcomeOf(world, p.rows[id], p.authFailed);
            && Candidates(q.rows, marketplace) == Candidates(p.rows, marketplace) - (if outcome.Settling() then {id} else {})
            && Settled(q.summary) == Settled(p.summary) + (if outcome.Settling() then 1 else 0)
            && q.summary.outcomes == p.summary.outcomes + [Line(id, outcome)]
            && |Candidates(q.rows, marketplace)| + Settled(q.summary) == |Candidates(p.rows, marketplace)| + Settled(p.summary)
  {
    SettlingRemoves(world, p, id, marketplace);
  }

  lemma {:induction false} SettledSoFar(world: World, rows: Rows, marketplace: Option<string>, ids: seq<nat>, n: nat)
    requires n <= |ids| && Distinct(ids) && forall id | id in ids :: id in rows && id in Candidates(rows, marketplace)
    ensures var p := After(world, false, rows, ids, n);
            Candidates(p.rows, marketplace) == Candidates(rows, marketplace) - SettledIds(p.summary.outcomes)
  {
    hide Step, Settled, OutcomeOf, Candidates, SettledIds;
    if n == 0 {
      NothingSettledYet(rows, |ids|);
    } else {
      var p, id := After(world, false, rows, ids, n - 1), ids[n - 1];
      SettledSoFar(world, rows, marketplace, ids, n - 1);
      StaysCandidateUntil(world, rows, marketplace, ids, n - 1);
      StepSettles(world, p, id, marketplace);
      SettledIdsAppend(p.summary.outcomes, Line(id, OutcomeOf(world, p.rows[id], p.authFailed)));
    }
  }

  lemma {:induction false} SettledCountSoFar(world: World, rows: Rows, marketplace: Option<string>, ids: seq<nat>, n: nat)
    requires n <= |ids| && Distinct(ids) && forall id | id in ids :: id in rows && id in Candidates(rows, marketplace)
    ensures var p := After(world, false, rows, ids, n);
            |Candidates(p.rows, marketplace)| + Settled(p.summary) == |Candidates(rows, marketplace)|
  {
    hide Step, Settled, OutcomeOf, Candidates;
    if n == 0 {
      NothingSettledYet(rows, |ids|);
    } else {
      SettledCountSoFar(world, rows, marketplace, ids, n - 1);
      StaysCandidateUntil(world, rows, marketplace, ids, n - 1);
      StepSettles(world, After(world, false, rows, ids, n - 1), ids[n - 1], marketplace);
    }
  }

  lemma StaysCandidateUntil(world: World, rows: Rows, marketplace: Option<string>, ids: seq<nat>, n: nat)
    requires n < |ids| && Distinct(ids) && forall id | id in ids :: id in rows && id in Candidates(rows, marketplace)
    ensures ids[n] in Candidates(After(world, false, rows, ids, n).rows, marketplace)
  {
    hide Step, Candidates;
    DistinctPrefix(ids, n);
    RowsKeepUntilTheirTurn(world, false, rows, ids, n, ids[n]);
    StaysCandidate(rows, After(world, false, rows, ids, n).rows, marketplace, ids[n]);
  }

  lemma NothingSettledYet(rows: Rows, considered: nat)
    ensures var s := Start(rows, false, considered).summary; Settled(s) == 0 && SettledIds(s.outcomes) == {}
  {
  }

  lemma StaysCandidate(rows: Rows, after: Rows, marketplace: Option<string>, id: nat)
    requires id in Candidates(rows, marketplace) && id in after && after[id] == rows[id]
    ensures id in Candidates(after, marketplace)
  {
  }

  /** An apply run removes from the candidates exactly the rows it settled. */
  lemma RunRemovesTheSettled(world: World, rows: Rows, marketplace: Option<string>, limit: nat)
    ensures var p := Ran(world, false, rows, marketplace, limit);
            && Candidates(p.rows, marketplace) == Candidates(rows, marketplace) - SettledIds(p.summary.outcomes)
            && |Candidates(p.rows, marketplace)| == |Candidates(rows, marketplace)| - Settled(p.summary)
  {
    var ids := MissingMetadata(rows, marketplace, limit);
    SettledSoFar(world, rows, marketplace, ids, |ids|);
    SettledCountSoFar(world, rows, marketplace, ids, |ids|);
  }

  predicate Settles(world: World, row: Row) {
    match world.connectors(row.marketplace)
    case Unconfigured => false
    case Ready => !(world.answers(Query(row.marketplace, row.externalId)) in {AuthError, ConnectorError, UnexpectedError})
    case _ => true
  }

  ghost predicate AllSettle(world: World, rows: Rows, marketplace: Option<string>) {
    forall id | id in Candidates(rows, marketplace) :: Settles(world, rows[id])
  }

  lemma StepSettlesOne(world: World, p: Progress, id: nat)
    requires id in p.rows && Settles(world, p.rows[id]) && p.authFailed == {}
    ensures var q := Step(world, false, p, id); Settled(q.summary) == Settled(p.summary) + 1 && q.authFailed == {}
  {
  }

  lemma {:induction false} EverythingSettles(world: World, rows: Rows, ids: seq<nat>, n: nat)
    requires n <= |ids| && Distinct(ids) && forall id | id in ids :: id in rows && Settles(world, rows[id])
    ensures var p := After(world, false, rows, ids, n); Settled(p.summary) == n && p.authFailed == {}
  {
    hide Step;
    if n > 0 {
      EverythingSettles(world, rows, ids, n - 1);
      DistinctPrefix(ids, n - 1);
      RowsKeepUntilTheirTurn(world, false, rows, ids, n - 1, ids[n - 1]);
      StepSettlesOne(world, After(world, false, rows, ids, n - 1), ids[n - 1]);
    }
  }

  lemma CandidatesShrink(world: World, rows: Rows, marketplace: Option<string>, limit: nat)
    requires AllSettle(world, rows, marketplace)
    ensures AllSettle(world, Ran(world, false, rows, marketplace, limit).rows, marketplace)
  {
    var ids := MissingMetadata(rows, marketplace, limit);
    var after := Ran(world, false, rows, marketplace, limit).rows;
    RunImprovesSoFar(world, false, rows, ids, |ids|);
    forall id | id in Candidates(after, marketplace)
      ensures Settles(world, after[id])
    {
      assert forall f :: f !in after[id].metadata ==> f !in rows[id].metadata;
      assert id in Candidates(rows, marketplace);
    }
  }

  /** `k` apply runs in a row. */
  ghost function Applied(world: World, rows: Rows, marketplace: Option<string>, limit: nat, k: nat): Rows {
    if k == 0 then rows else Ran(world, false, Applied(world, rows, marketplace, limit, k - 1), marketplace, limit).rows
  }

  lemma OneRunTakesItsShare(world: World, rows: Rows, marketplace: Option<string>, limit: nat)
    requires AllSettle(world, rows, marketplace)
    ensures var after, n := Ran(world, false, rows, marketplace, limit).rows, |Candidates(rows, marketplace)|;
            |Candidates(after, marketplace)| == (if n <= limit then 0 else n - limit) && AllSettle(world, after, marketplace)
  {
    var ids := MissingMetadata(rows, marketplace, limit);
    EverythingSettles(world, rows, ids, |ids|);
    RunRemovesTheSettled(world, rows, marketplace, limit);
    CandidatesShrink(world, rows, marketplace, limit);
  }

  /** When no lookup fails and no marketplace is merely unconfigured, every apply
      run takes `min(limit, n)` of the `n` candidates, so that `k` runs leave
      `max(0, n - k * limit)`. */
  lemma {:induction false} RunsEmptyTheCandidates(world: World, rows: Rows, marketplace: Option<string>, limit: nat, k: nat)
    requires AllSettle(world, rows, marketplace)
    ensures var n, left := |Candidates(rows, marketplace)|, |Candidates(Applied(world, rows, marketplace, limit, k), marketplace)|;
            left == if n <= k * limit then 0 else n - k * limit
    ensures AllSettle(world, Applied(world, rows, marketplace, limit, k), marketplace)
  {
    hide Ran;
    if k > 0 {
      RunsEmptyTheCandidates(world, rows, marketplace, limit, k - 1);
      OneRunTakesItsShare(world, Applied(world, rows, marketplace, limit, k - 1), marketplace, limit);
      assert k * limit == (k - 1) * limit + limit;
    }
  }
}
