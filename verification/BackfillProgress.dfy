/** Which candidates the backfill ever reaches. A run takes the newest `limit`
    candidates, and those it cannot settle are in its way again the next time. */
module BackfillProgress {

  import opened Sql
  import opened OrderBy
  import opened MetadataBackfill

  /** Asking for the row trips the breaker of its marketplace. */
  predicate TripsBreaker(world: World, row: Row) {
    world.connectors(row.marketplace).Ready? && world.answers(Query(row.marketplace, row.externalId)) == AuthError
  }

  /** A newer candidate of the same marketplace trips the breaker before the
      row's turn, in every run that selects the row. */
  ghost predicate BrokenOff(world: World, rows: Rows, marketplace: Option<string>, c: nat)
    requires c in rows
  {
    exists y | y in Candidates(rows, marketplace) ::
      NewestFirst(rows)(y, c) && rows[y].marketplace == rows[c].marketplace && TripsBreaker(world, rows[y])
  }

  /** A run that selects the row settles it. */
  ghost predicate Clear(world: World, rows: Rows, marketplace: Option<string>, c: nat)
    requires c in rows
  {
    Settles(world, rows[c]) && !BrokenOff(world, rows, marketplace, c)
  }

  ghost function Newer(rows: Rows, marketplace: Option<string>, c: nat): set<nat> {
    Preceding(NewestFirst(rows), Candidates(rows, marketplace), c)
  }

  /** The newer candidates that no run settles. */
  ghost function Blockers(world: World, rows: Rows, marketplace: Option<string>, c: nat): set<nat> {
    set x | x in Newer(rows, marketplace, c) && !Clear(world, rows, marketplace, x)
  }

  // -------------------------------------------------------------- one run

  lemma SelectedIffFewNewer(rows: Rows, marketplace: Option<string>, limit: nat, c: nat)
    requires c in Candidates(rows, marketplace)
    ensures c in MissingMetadata(rows, marketplace, limit) <==> |Newer(rows, marketplace, c)| < limit
  {
    var pool := Candidates(rows, marketplace);
    NewestFirstIsStrict(rows, pool);
    if limit < |pool| {
      SelectedIff(NewestFirst(rows), pool, limit, c);
    } else {
      SelectedIff(NewestFirst(rows), pool, |pool|, c);
      var all := Ordered(NewestFirst(rows), pool);
      assert all[..|pool|] == all && c in Elements(all);
    }
  }

  lemma BatchIsInOrder(rows: Rows, marketplace: Option<string>, limit: nat, j: nat, y: nat)
    requires j < |MissingMetadata(rows, marketplace, limit)|
    ensures var ids := MissingMetadata(rows, marketplace, limit);
            y in Newer(rows, marketplace, ids[j]) <==> y in ids[..j]
  {
    hide StrictTotal, Sorted;
    var pool := Candidates(rows, marketplace);
    PoolIsStrict(rows, marketplace);
    var all, ids := Ordered(NewestFirst(rows), pool), MissingMetadata(rows, marketplace, limit);
    PrecedesIff(NewestFirst(rows), pool, j, y);
    assert ids[..j] == all[..j];
  }

  lemma StepTripsIff(world: World, p: Progress, id: nat)
    requires id in p.rows
    ensures Step(world, false, p, id).authFailed ==
            p.authFailed + if TripsBreaker(world, p.rows[id]) then {p.rows[id].marketplace} else {}
  {
  }

  lemma {:induction false} BrokenOffSoFar(world: World, rows: Rows, ids: seq<nat>, n: nat, mp: string)
    requires n <= |ids| && Distinct(ids) && forall id | id in ids :: id in rows
    ensures mp in After(world, false, rows, ids, n).authFailed
            <==> exists y | y in ids[..n] :: rows[y].marketplace == mp && TripsBreaker(world, rows[y])
  {
    hide Step, TripsBreaker;
    if n > 0 {
      var p, id := After(world, false, rows, ids, n - 1), ids[n - 1];
      BrokenOffSoFar(world, rows, ids, n - 1, mp);
      DistinctPrefix(ids, n - 1);
      RowsKeepUntilTheirTurn(world, false, rows, ids, n - 1, id);
      StepTripsIff(world, p, id);
      assert ids[..n] == ids[..n - 1] + [id];
    }
  }

  lemma {:induction false} OutcomesSoFar(world: World, rows: Rows, ids: seq<nat>, n: nat, j: nat)
    requires j < n <= |ids| && Distinct(ids) && forall id | id in ids :: id in rows
    ensures var outcomes := After(world, false, rows, ids, n).summary.outcomes;
            && |outcomes| == n
            && outcomes[j] == Line(ids[j], OutcomeOf(world, rows[ids[j]], After(world, false, rows, ids, j).authFailed))
  {
    hide Step, OutcomeOf;
    var p, id := After(world, false, rows, ids, n - 1), ids[n - 1];
    DistinctPrefix(ids, n - 1);
    RowsKeepUntilTheirTurn(world, false, rows, ids, n - 1, id);
    StepReports(world, p, id);
    CountOfOutcomes(world, rows, ids, n - 1);
    if j < n - 1 {
      OutcomesSoFar(world, rows, ids, n - 1, j);
    }
  }

  lemma StepReports(world: World, p: Progress, id: nat)
    requires id in p.rows
    ensures Step(world, false, p, id).summary.outcomes == p.summary.outcomes + [Line(id, OutcomeOf(world, p.rows[id], p.authFailed))]
  {
  }

  lemma {:induction false} CountOfOutcomes(world: World, rows: Rows, ids: seq<nat>, n: nat)
    requires n <= |ids| && forall id | id in ids :: id in rows
    ensures |After(world, false, rows, ids, n).summary.outcomes| == n
  {
    hide Step;
    if n > 0 {
      CountOfOutcomes(world, rows, ids, n - 1);
      StepReports(world, After(world, false, rows, ids, n - 1), ids[n - 1]);
    }
  }

  lemma SettlingIff(world: World, row: Row, authFailed: set<string>)
    ensures OutcomeOf(world, row, authFailed).Settling() <==> Settles(world, row) && row.marketplace !in authFailed
  {
  }

  /** Of the selected rows, a run settles exactly the clear ones. */
  lemma SelectedIsSettledIff(world: World, rows: Rows, marketplace: Option<string>, limit: nat, j: nat)
    requires j < |MissingMetadata(rows, marketplace, limit)|
    ensures var ids := MissingMetadata(rows, marketplace, limit);
            OutcomeOf(world, rows[ids[j]], After(world, false, rows, ids, j).authFailed).Settling()
            <==> Clear(world, rows, marketplace, ids[j])
  {
    hide OutcomeOf, Settles, TripsBreaker;
    var ids := MissingMetadata(rows, marketplace, limit);
    var c := ids[j];
    SettlingIff(world, rows[c], After(world, false, rows, ids, j).authFailed);
    BrokenOffSoFar(world, rows, ids, j, rows[c].marketplace);
    forall y
      ensures y in Newer(rows, marketplace, c) <==> y in ids[..j]
    {
      BatchIsInOrder(rows, marketplace, limit, j, y);
    }
    BrokenOffByNewer(world, rows, marketplace, c);
  }

  lemma BrokenOffByNewer(world: World, rows: Rows, marketplace: Option<string>, c: nat)
    requires c in rows
    ensures BrokenOff(world, rows, marketplace, c)
            <==> exists y | y in Newer(rows, marketplace, c) :: rows[y].marketplace == rows[c].marketplace && TripsBreaker(world, rows[y])
  {
  }

  lemma BatchesAreRows(rows: Rows, marketplace: Option<string>, limit: nat)
    ensures forall id | id in MissingMetadata(rows, marketplace, limit) :: id in rows
  {
  }

  ghost function Next(world: World, rows: Rows, marketplace: Option<string>, limit: nat): Rows {
    Ran(world, false, rows, marketplace, limit).rows
  }

  /** A candidate stays one unless it is selected and clear. */
  lemma StaysIff(world: World, rows: Rows, marketplace: Option<string>, limit: nat, c: nat)
    requires c in Candidates(rows, marketplace)
    ensures c in Candidates(Next(world, rows, marketplace, limit), marketplace)
            <==> !(|Newer(rows, marketplace, c)| < limit && Clear(world, rows, marketplace, c))
  {
    hide OutcomeOf, Clear, Newer, Candidates, Step, MissingMetadata;
    var ids, p := MissingMetadata(rows, marketplace, limit), Ran(world, false, rows, marketplace, limit);
    RunRemovesTheSettled(world, rows, marketplace, limit);
    SelectedIffFewNewer(rows, marketplace, limit, c);
    BatchesAreRows(rows, marketplace, limit);
    CountOfOutcomes(world, rows, ids, |ids|);
    forall j | 0 <= j < |ids|
      ensures p.summary.outcomes[j].id == ids[j]
      ensures p.summary.outcomes[j].outcome.Settling() <==> Clear(world, rows, marketplace, ids[j])
    {
      OutcomesSoFar(world, rows, ids, |ids|, j);
      SelectedIsSettledIff(world, rows, marketplace, limit, j);
    }
    if c in ids {
      var j :| 0 <= j < |ids| && ids[j] == c;
    }
  }

  /** What a run leaves of the rows it does not settle. */
  ghost predicate SameRows(rows: Rows, after: Rows) {
    && rows.Keys == after.Keys
    && forall id | id in rows ::
         && after[id].marketplace == rows[id].marketplace && after[id].externalId == rows[id].externalId
         && after[id].discoveredAt == rows[id].discoveredAt
  }

  lemma RunKeepsRows(world: World, rows: Rows, marketplace: Option<string>, limit: nat)
    ensures var after := Next(world, rows, marketplace, limit);
            SameRows(rows, after) && Candidates(after, marketplace) <= Candidates(rows, marketplace)
  {
    var ids := MissingMetadata(rows, marketplace, limit);
    RunImprovesSoFar(world, false, rows, ids, |ids|);
    RunRemovesTheSettled(world, rows, marketplace, limit);
  }

  /** A row that trips the breaker is never settled, so it stays in the way. */
  lemma ClearStaysClear(world: World, rows: Rows, marketplace: Option<string>, limit: nat, c: nat)
    requires c in rows
    ensures var after := Next(world, rows, marketplace, limit);
            c in after && (Clear(world, after, marketplace, c) <==> Clear(world, rows, marketplace, c))
  {
    hide Candidates, Next, Newer;
    var after := Next(world, rows, marketplace, limit);
    RunKeepsRows(world, rows, marketplace, limit);
    forall y | y in rows && y in Candidates(rows, marketplace) && TripsBreaker(world, rows[y])
      ensures y in Candidates(after, marketplace)
    {
      StaysIff(world, rows, marketplace, limit, y);
    }
    assert BrokenOff(world, rows, marketplace, c) ==> BrokenOff(world, after, marketplace, c);
  }

  lemma CandidatesAreRows(rows: Rows, marketplace: Option<string>, c: nat)
    requires c in Candidates(rows, marketplace)
    ensures c in rows
  {
  }

  lemma NewerShrinks(world: World, rows: Rows, marketplace: Option<string>, limit: nat, c: nat)
    requires c in rows
    ensures var after := Next(world, rows, marketplace, limit);
            && Newer(after, marketplace, c) == Newer(rows, marketplace, c) * Candidates(after, marketplace)
            && Blockers(world, after, marketplace, c) == Blockers(world, rows, marketplace, c)
  {
    hide Candidates, Next, Clear;
    var after := Next(world, rows, marketplace, limit);
    RunKeepsRows(world, rows, marketplace, limit);
    forall x | x in Newer(rows, marketplace, c)
      ensures x in after && (Clear(world, after, marketplace, x) <==> Clear(world, rows, marketplace, x))
      ensures !Clear(world, rows, marketplace, x) ==> x in Candidates(after, marketplace)
    {
      ClearStaysClear(world, rows, marketplace, limit, x);
      StaysIff(world, rows, marketplace, limit, x);
    }
  }

  // ------------------------------------------------------------ all runs

  /** Fewer than `limit` newer candidates are in the way, and none breaks off. */
  ghost predicate WithinReach(world: World, rows: Rows, marketplace: Option<string>, limit: nat, c: nat)
    requires c in rows
  {
    Clear(world, rows, marketplace, c) && |Blockers(world, rows, marketplace, c)| < limit
  }

  lemma ReachIsDecidedAtTheStart(world: World, rows: Rows, marketplace: Option<string>, limit: nat, c: nat)
    requires c in rows
    ensures var after := Next(world, rows, marketplace, limit);
            c in after && (WithinReach(world, after, marketplace, limit, c) <==> WithinReach(world, rows, marketplace, limit, c))
  {
    ClearStaysClear(world, rows, marketplace, limit, c);
    NewerShrinks(world, rows, marketplace, limit, c);
  }

  lemma {:induction false} OutOfReachStays(world: World, rows: Rows, marketplace: Option<string>, limit: nat, c: nat, k: nat)
    requires c in Candidates(rows, marketplace) && !WithinReach(world, rows, marketplace, limit, c)
    ensures var here := Applied(world, rows, marketplace, limit, k);
            c in Candidates(here, marketplace) && !WithinReach(world, here, marketplace, limit, c)
  {
    hide Ran, Clear, Blockers, Newer, Candidates;
    if k > 0 {
      var here := Applied(world, rows, marketplace, limit, k - 1);
      OutOfReachStays(world, rows, marketplace, limit, c, k - 1);
      CandidatesAreRows(here, marketplace, c);
      ReachIsDecidedAtTheStart(world, here, marketplace, limit, c);
      BlockersAreNewer(world, here, marketplace, c);
      StaysIff(world, here, marketplace, limit, c);
    }
  }

  lemma BlockersAreNewer(world: World, rows: Rows, marketplace: Option<string>, c: nat)
    ensures Blockers(world, rows, marketplace, c) <= Newer(rows, marketplace, c)
    ensures |Blockers(world, rows, marketplace, c)| <= |Newer(rows, marketplace, c)|
  {
    SubsetCount(Blockers(world, rows, marketplace, c), Newer(rows, marketplace, c));
  }

  /** A row within reach that is not selected has a clear row selected before it. */
  lemma RunClearsTheWay(world: World, rows: Rows, marketplace: Option<string>, limit: nat, c: nat)
    requires c in Candidates(rows, marketplace) && WithinReach(world, rows, marketplace, limit, c)
    requires |Newer(rows, marketplace, c)| >= limit
    ensures |Newer(Next(world, rows, marketplace, limit), marketplace, c)| < |Newer(rows, marketplace, c)|
  {
    hide Next, Clear, Candidates;
    var after, newer := Next(world, rows, marketplace, limit), Newer(rows, marketplace, c);
    CandidatesAreRows(rows, marketplace, c);
    var x := ClearOneSelected(world, rows, marketplace, limit, c);
    StaysIff(world, rows, marketplace, limit, x);
    NewerShrinks(world, rows, marketplace, limit, c);
    SubsetCount(newer * Candidates(after, marketplace), newer - {x});
  }

  /** The first `limit` candidates. */
  lemma TheSelected(rows: Rows, marketplace: Option<string>, limit: nat, c: nat) returns (selected: set<nat>)
    requires c in Candidates(rows, marketplace) && |Newer(rows, marketplace, c)| >= limit
    ensures |selected| == limit && selected <= Newer(rows, marketplace, c)
    ensures forall x | x in selected :: x in Candidates(rows, marketplace) && |Newer(rows, marketplace, x)| < limit
  {
    hide Candidates, StrictTotal, Sorted;
    var pool, before := Candidates(rows, marketplace), NewestFirst(rows);
    PoolIsStrict(rows, marketplace);
    var all := Ordered(before, pool);
    assert c in Elements(all);
    var i :| 0 <= i < |all| && all[i] == c;
    PrecedingAreFirst(before, pool, i);
    PrecedingAreFirst(before, pool, limit);
    selected := Elements(all[..limit]);
    forall x | x in selected
      ensures x in Newer(rows, marketplace, c) && x in pool && |Newer(rows, marketplace, x)| < limit
    {
      var j :| 0 <= j < limit && all[j] == x;
      assert all[..i][j] == x && x in Elements(all);
      PrecedingAreFirst(before, pool, j);
    }
  }

  lemma PoolIsStrict(rows: Rows, marketplace: Option<string>)
    ensures StrictTotal(NewestFirst(rows), Candidates(rows, marketplace))
  {
    NewestFirstIsStrict(rows, Candidates(rows, marketplace));
  }

  lemma ClearOneSelected(world: World, rows: Rows, marketplace: Option<string>, limit: nat, c: nat) returns (x: nat)
    requires c in Candidates(rows, marketplace) && WithinReach(world, rows, marketplace, limit, c)
    requires |Newer(rows, marketplace, c)| >= limit
    ensures x in Newer(rows, marketplace, c) && x in Candidates(rows, marketplace)
    ensures |Newer(rows, marketplace, x)| < limit && Clear(world, rows, marketplace, x)
  {
    hide Clear, Newer, Candidates;
    var selected := TheSelected(rows, marketplace, limit, c);
    var blockers := Blockers(world, rows, marketplace, c);
    if selected <= blockers {
      SubsetCount(selected, blockers);
    }
    x :| x in selected && x !in blockers;
    NewerAreCandidates(rows, marketplace, c);
  }

  lemma NewerAreCandidates(rows: Rows, marketplace: Option<string>, c: nat)
    ensures forall x | x in Newer(rows, marketplace, c) :: x in rows && x in Candidates(rows, marketplace)
  {
  }

  lemma {:induction false} AppliedFromTheFront(world: World, rows: Rows, marketplace: Option<string>, limit: nat, k: nat)
    ensures Applied(world, Next(world, rows, marketplace, limit), marketplace, limit, k) == Applied(world, rows, marketplace, limit, k + 1)
  {
    hide Ran;
    if k > 0 {
      AppliedFromTheFront(world, rows, marketplace, limit, k - 1);
    }
  }

  lemma {:induction false} WithinReachIsReached(world: World, rows: Rows, marketplace: Option<string>, limit: nat, c: nat) returns (k: nat)
    requires c in Candidates(rows, marketplace) && WithinReach(world, rows, marketplace, limit, c)
    ensures k <= |Newer(rows, marketplace, c)| + 1
    ensures c !in Candidates(Applied(world, rows, marketplace, limit, k), marketplace)
    decreases |Newer(rows, marketplace, c)|
  {
    hide Ran, Clear, Blockers, Newer, Candidates;
    var after := Next(world, rows, marketplace, limit);
    CandidatesAreRows(rows, marketplace, c);
    StaysIff(world, rows, marketplace, limit, c);
    AppliedFromTheFront(world, rows, marketplace, limit, 0);
    k := 1;
    if c in Candidates(after, marketplace) {
      ReachIsDecidedAtTheStart(world, rows, marketplace, limit, c);
      RunClearsTheWay(world, rows, marketplace, limit, c);
      var rest := WithinReachIsReached(world, after, marketplace, limit, c);
      AppliedFromTheFront(world, rows, marketplace, limit, rest);
      k := rest + 1;
    }
  }

  // ----------------------------------------------------------------- laws

  /** Exactly which candidates the backfill ever settles, whatever the answers:
      those that a look-up settles, that no newer candidate of their marketplace
      breaks off with an authentication error, and that have fewer than `limit`
      newer candidates of which either fails. */
  lemma SettledEventuallyIff(world: World, rows: Rows, marketplace: Option<string>, limit: nat, c: nat)
    requires c in Candidates(rows, marketplace)
    ensures (exists k: nat :: c !in Candidates(Applied(world, rows, marketplace, limit, k), marketplace))
            <==> Settles(world, rows[c]) && !BrokenOff(world, rows, marketplace, c)
                 && |Blockers(world, rows, marketplace, c)| < limit
  {
    if WithinReach(world, rows, marketplace, limit, c) {
      var k := WithinReachIsReached(world, rows, marketplace, limit, c);
    } else {
      forall k: nat
        ensures c in Candidates(Applied(world, rows, marketplace, limit, k), marketplace)
      {
        OutOfReachStays(world, rows, marketplace, limit, c, k);
      }
    }
  }

  /** Without authentication errors: a row is settled eventually if and only if
      its look-up settles it and fewer than `limit` newer candidates fail to. */
  lemma SettledEventuallyIffNoAuthError(world: World, rows: Rows, marketplace: Option<string>, limit: nat, c: nat)
    requires c in Candidates(rows, marketplace)
    requires forall id | id in Candidates(rows, marketplace) :: !TripsBreaker(world, rows[id])
    ensures (exists k: nat :: c !in Candidates(Applied(world, rows, marketplace, limit, k), marketplace))
            <==> Settles(world, rows[c])
                 && |set x | x in Candidates(rows, marketplace) && NewestFirst(rows)(x, c) && !Settles(world, rows[x])| < limit
  {
    SettledEventuallyIff(world, rows, marketplace, limit, c);
    assert Blockers(world, rows, marketplace, c) ==
           set x | x in Candidates(rows, marketplace) && NewestFirst(rows)(x, c) && !Settles(world, rows[x]);
  }

  /** Exactly when enough runs empty the candidates. */
  lemma EmptiedEventuallyIff(world: World, rows: Rows, marketplace: Option<string>, limit: nat)
    ensures (exists k: nat :: Candidates(Applied(world, rows, marketplace, limit, k), marketplace) == {})
            <==> Candidates(rows, marketplace) == {} || (limit > 0 && AllSettle(world, rows, marketplace))
  {
    hide Ran;
    var n := |Candidates(rows, marketplace)|;
    if k: nat :| Candidates(Applied(world, rows, marketplace, limit, k), marketplace) == {} {
      forall c | c in Candidates(rows, marketplace)
        ensures limit > 0 && Settles(world, rows[c])
      {
        assert c !in Candidates(Applied(world, rows, marketplace, limit, k), marketplace);
        SettledEventuallyIff(world, rows, marketplace, limit, c);
      }
    }
    if Candidates(rows, marketplace) == {} {
      assert Candidates(Applied(world, rows, marketplace, limit, 0), marketplace) == {};
    } else if limit > 0 && AllSettle(world, rows, marketplace) {
      RunsEmptyTheCandidates(world, rows, marketplace, limit, n);
      assert n <= n * limit;
      assert Candidates(Applied(world, rows, marketplace, limit, n), marketplace) == {};
    }
  }

  function BadMarket(connector: Connector, answer: Answer): World {
    World((mp: string) => if mp == "bad" then connector else Ready, (q: Query) => if q.marketplace == "bad" then answer else Gone)
  }

  const TWO_ROWS: Rows :=
    map[1 := Row("bad", "x", 20, map[], Pending), 0 := Row("good", "y", 10, map[], Pending)]

  /** A starved row: one look-up a run, and a newer row whose marketplace is
      unconfigured, or whose look-up always fails. The older row, which a single
      look-up would settle, is never reached. */
  lemma OlderRowStarves(connector: Connector, answer: Answer, k: nat)
    requires connector == Unconfigured || (connector == Ready && answer in {AuthError, ConnectorError, UnexpectedError})
    ensures Settles(BadMarket(connector, answer), TWO_ROWS[0])
    ensures 0 in Candidates(Applied(BadMarket(connector, answer), TWO_ROWS, None, 1, k), None)
  {
    var world := BadMarket(connector, answer);
    assert Price !in TWO_ROWS[0].metadata && Price !in TWO_ROWS[1].metadata;
    assert 1 in Blockers(world, TWO_ROWS, None, 0);
    SubsetCount({1}, Blockers(world, TWO_ROWS, None, 0));
    OutOfReachStays(world, TWO_ROWS, None, 1, 0, k);
  }
}
