/** Concurrent scans. Each scan is one transaction that works through its
    listings in small steps: look a row up, insert it inside a savepoint, and on
    a unique violation read the winner's row instead. A transaction sees what is
    committed and what it wrote itself; inserting a key that another open
    transaction has written waits for that one to end. */
module ScanRace {

  import opened Sql
  import opened ScanTables

  datatype Phase = Idle | InsertingListing | FoundListing | InsertingAttribution

  /** `asked` is the scan's work list and `todo` what is left of it; `created` are
      the new attributions not enqueued yet. */
  datatype Scan = Scan(search: nat, asked: seq<Key>, todo: seq<Key>, phase: Phase, created: seq<Key>, inserting: bool, mine: Tables)

  /** `done` logs every (search, listing) of a committed scan. */
  datatype State = State(owners: Owners, tables: Tables, open: map<nat, Scan>, done: set<Attribution>)

  const EMPTY := State(map[], NOTHING, map[], {})

  datatype Step =
    | CreateSearch(search: nat, owner: Option<nat>)
    | Start(worker: nat, search: nat, keys: seq<Key>)
    | Discover(worker: nat)
    | Enqueue(worker: nat)
    | Commit(worker: nat)
    | Abort(worker: nat)

  // ---------------------------------------------------------------- steps

  /** Some other open transaction has written it. */
  ghost predicate ListingPending(s: State, w: nat, key: Key) {
    exists v :: v in s.open && v != w && key in s.open[v].mine.listings
  }

  ghost predicate AttributionPending(s: State, w: nat, a: Attribution) {
    exists v :: v in s.open && v != w && a in s.open[v].mine.attributions
  }

  ghost predicate AlertPending(s: State, w: nat, a: Alert) {
    exists v :: v in s.open && v != w && a in s.open[v].mine.alerts
  }

  ghost predicate Enabled(s: State, e: Step) {
    match e
    case CreateSearch(search, _) => search !in s.owners
    case Start(w, search, _) => w !in s.open && search in s.owners
    case Discover(w) =>
      w in s.open && s.open[w].todo != [] &&
      var scan := s.open[w];
      && (scan.phase == InsertingListing ==> !ListingPending(s, w, scan.todo[0]))
      && (scan.phase == InsertingAttribution ==> !AttributionPending(s, w, Attribution(scan.search, scan.todo[0])))
    case Enqueue(w) =>
      w in s.open && s.open[w].created != [] && s.open[w].search in s.owners &&
      var scan, owner := s.open[w], s.owners[s.open[w].search];
      scan.inserting && owner.Some? ==> !AlertPending(s, w, Alert(owner.value, scan.created[0]))
    case Commit(w) => w in s.open && s.open[w].todo == [] && s.open[w].created == []
    case Abort(w) => w in s.open
  }

  /** One step of `get_or_create` and `record_if_missing` on the next listing. */
  function DiscoverNext(seen: Tables, scan: Scan): Scan
    requires scan.todo != []
  {
    var key, a := scan.todo[0], Attribution(scan.search, scan.todo[0]);
    var next := scan.(todo := scan.todo[1..], phase := Idle);
    match scan.phase
    case Idle => scan.(phase := if key in seen.listings || key in scan.mine.listings then FoundListing else InsertingListing)
    case InsertingListing =>
      if key in seen.listings then scan.(phase := FoundListing)
      else scan.(phase := FoundListing, mine := scan.mine.(listings := scan.mine.listings + {key}))
    case FoundListing =>
      if a in seen.attributions || a in scan.mine.attributions then next else scan.(phase := InsertingAttribution)
    case InsertingAttribution =>
      if a in seen.attributions then next
      else next.(created := scan.created + [key], mine := scan.mine.(attributions := scan.mine.attributions + {a}))
  }

  /** One step of `enqueue` for the next newly attributed listing. */
  function EnqueueNext(seen: Tables, scan: Scan, owner: Option<nat>): Scan
    requires scan.created != []
  {
    var key := scan.created[0];
    var next := scan.(created := scan.created[1..], inserting := false);
    if owner.None? then next.(mine := scan.mine.(ownerless := scan.mine.ownerless + multiset{key}))
    else
      var alert := Alert(owner.value, key);
      if !scan.inserting then
        if alert in seen.alerts || alert in scan.mine.alerts then next else scan.(inserting := true)
      else if alert in seen.alerts then next
      else next.(mine := scan.mine.(alerts := scan.mine.alerts + {alert}))
  }

  ghost function Asked(scan: Scan): set<Attribution> {
    set k | k in scan.asked :: Attribution(scan.search, k)
  }

  ghost function Apply(s: State, e: Step): State {
    match e
    case CreateSearch(search, owner) => s.(owners := s.owners[search := owner])
    case Start(w, search, keys) => s.(open := s.open[w := Scan(search, keys, keys, Idle, [], false, NOTHING)])
    case Discover(w) =>
      if w in s.open && s.open[w].todo != [] then s.(open := s.open[w := DiscoverNext(s.tables, s.open[w])]) else s
    case Enqueue(w) =>
      if w in s.open && s.open[w].created != [] && s.open[w].search in s.owners then
        s.(open := s.open[w := EnqueueNext(s.tables, s.open[w], s.owners[s.open[w].search])])
      else s
    case Commit(w) =>
      if w in s.open then
        State(s.owners, s.tables.Plus(s.open[w].mine), s.open - {w}, s.done + Asked(s.open[w]))
      else s
    case Abort(w) => s.(open := s.open - {w})
  }

  ghost function Replay(run: seq<Step>): State {
    if run == [] then EMPTY else Apply(Replay(run[..|run| - 1]), run[|run| - 1])
  }

  ghost predicate Legal(run: seq<Step>) {
    run == [] || (Legal(run[..|run| - 1]) && Enabled(Replay(run[..|run| - 1]), run[|run| - 1]))
  }

  // ------------------------------------------------------------ invariant

  /** The listings of the scan that are dealt with. */
  function Handled(scan: Scan): seq<Key>
    requires |scan.todo| <= |scan.asked|
  {
    scan.asked[..|scan.asked| - |scan.todo|]
  }

  /** The matches one open scan has written, given what is committed. */
  ghost predicate MatchesInv(seen: Tables, scan: Scan) {
    && |scan.todo| <= |scan.asked| && scan.asked == Handled(scan) + scan.todo
    && (forall a | a in scan.mine.attributions ::
          a.search == scan.search && a.key in scan.asked && (a.key in seen.listings || a.key in scan.mine.listings))
    && (forall k | k in Handled(scan) ::
          Attribution(scan.search, k) in seen.attributions || Attribution(scan.search, k) in scan.mine.attributions)
    && (forall k | k in scan.mine.listings :: k in scan.asked)
    && (scan.todo != [] && (scan.phase == FoundListing || scan.phase == InsertingAttribution) ==>
          scan.todo[0] in seen.listings || scan.todo[0] in scan.mine.listings)
    && (scan.todo != [] && scan.phase == InsertingAttribution ==>
          Attribution(scan.search, scan.todo[0]) !in scan.mine.attributions)
  }

  /** Its outbox rows: every match of its own is enqueued, or still waits in
      `created`. */
  ghost predicate AlertsInv(owner: Option<nat>, seen: Tables, scan: Scan) {
    && Distinct(scan.created)
    && (forall k | k in scan.created :: Attribution(scan.search, k) in scan.mine.attributions)
    && (forall x | x in scan.mine.alerts :: owner == Some(x.user) && Attribution(scan.search, x.key) in scan.mine.attributions)
    && (owner.Some? ==> forall a | a in scan.mine.attributions && a.key !in scan.created ::
          Alert(owner.value, a.key) in seen.alerts || Alert(owner.value, a.key) in scan.mine.alerts)
    && (forall k :: scan.mine.ownerless[k] ==
          if owner.None? && Attribution(scan.search, k) in scan.mine.attributions && k !in scan.created then 1 else 0)
  }

  ghost predicate ScanInv(owners: Owners, seen: Tables, scan: Scan) {
    && scan.search in owners
    && MatchesInv(seen, scan)
    && AlertsInv(owners[scan.search], seen, scan)
  }

  ghost predicate Disjoint(a: Tables, b: Tables) {
    a.listings !! b.listings && a.attributions !! b.attributions && a.alerts !! b.alerts
  }

  ghost predicate Inv(s: State) {
    && Linked(s.owners, s.tables)
    && s.tables.attributions == s.done
    && s.tables.listings == (set a | a in s.done :: a.key)
    && (forall w | w in s.open :: ScanInv(s.owners, s.tables, s.open[w]) && Disjoint(s.tables, s.open[w].mine))
    && (forall v, w | v in s.open && w in s.open && v != w :: Disjoint(s.open[v].mine, s.open[w].mine))
  }

  lemma AttributedListingIsHandled(seen: Tables, scan: Scan, next: Scan)
    requires MatchesInv(seen, scan) && scan.todo != [] && scan.phase in {FoundListing, InsertingAttribution}
    requires next.search == scan.search && next.asked == scan.asked && next.todo == scan.todo[1..] && next.phase == Idle
    requires next.mine.listings == scan.mine.listings
    requires var a := Attribution(scan.search, scan.todo[0]);
             next.mine.attributions == scan.mine.attributions + if a in seen.attributions then {} else {a}
    ensures MatchesInv(seen, next)
  {
    assert scan.todo[0] in scan.asked;
    assert Handled(next) == Handled(scan) + [scan.todo[0]];
  }

  lemma DiscoverKeepsMatches(seen: Tables, scan: Scan)
    requires MatchesInv(seen, scan) && scan.todo != []
    ensures MatchesInv(seen, DiscoverNext(seen, scan))
  {
    var next := DiscoverNext(seen, scan);
    assert scan.todo[0] in scan.asked;
    if next.todo != scan.todo {
      AttributedListingIsHandled(seen, scan, next);
    } else {
      assert Handled(next) == Handled(scan);
    }
  }

  lemma NewMatchWaits(owner: Option<nat>, seen: Tables, scan: Scan, next: Scan, key: Key)
    requires AlertsInv(owner, seen, scan) && Attribution(scan.search, key) !in scan.mine.attributions
    requires next.search == scan.search && next.created == scan.created + [key]
    requires next.mine == scan.mine.(attributions := scan.mine.attributions + {Attribution(scan.search, key)})
    ensures AlertsInv(owner, seen, next)
  {
    assert key !in scan.created;
    assert forall k :: k in next.created <==> k in scan.created || k == key;
  }

  lemma DiscoverKeepsAlerts(owner: Option<nat>, seen: Tables, scan: Scan)
    requires MatchesInv(seen, scan) && AlertsInv(owner, seen, scan) && scan.todo != []
    ensures AlertsInv(owner, seen, DiscoverNext(seen, scan))
  {
    var next := DiscoverNext(seen, scan);
    if next.created != scan.created {
      NewMatchWaits(owner, seen, scan, next, scan.todo[0]);
    }
  }

  lemma EnqueueKeepsAlerts(owner: Option<nat>, seen: Tables, scan: Scan)
    requires AlertsInv(owner, seen, scan) && scan.created != []
    ensures AlertsInv(owner, seen, EnqueueNext(seen, scan, owner))
  {
    var key, rest := scan.created[0], scan.created[1..];
    assert key in scan.created && key !in rest && scan.created == [key] + rest;
    assert forall k :: k in scan.created <==> k == key || k in rest;
  }

  lemma EnqueueKeepsMatches(owner: Option<nat>, seen: Tables, scan: Scan)
    requires MatchesInv(seen, scan) && scan.created != []
    ensures MatchesInv(seen, EnqueueNext(seen, scan, owner))
  {
    assert Handled(EnqueueNext(seen, scan, owner)) == Handled(scan);
  }

  lemma SeenGrows(owners: Owners, seen: Tables, more: Tables, scan: Scan)
    requires ScanInv(owners, seen, scan)
    ensures ScanInv(owners, seen.Plus(more), scan)
  {
  }

  lemma OwnersGrow(owners: Owners, seen: Tables, scan: Scan, search: nat, owner: Option<nat>)
    requires ScanInv(owners, seen, scan) && search !in owners
    ensures ScanInv(owners[search := owner], seen, scan)
  {
  }

  lemma LinksOfNewSearch(owners: Owners, t: Tables, search: nat, owner: Option<nat>)
    requires Linked(owners, t) && search !in owners
    ensures Linked(owners[search := owner], t)
  {
    var more := owners[search := owner];
    forall user: nat, key
      ensures Entitled(more, t.attributions, user, key) <==> Entitled(owners, t.attributions, user, key)
    {
      if Entitled(owners, t.attributions, user, key) {
        var s :| s in owners && owners[s] == Some(user) && Attribution(s, key) in t.attributions;
        assert s in more && more[s] == Some(user);
      }
    }
    forall key
      ensures OwnerlessSearches(more, t.attributions, key) == OwnerlessSearches(owners, t.attributions, key)
    {
    }
  }

  /** A finished scan leaves exactly what links its matches to the outbox. */
  lemma LinksOfCommit(owners: Owners, seen: Tables, scan: Scan)
    requires Linked(owners, seen) && ScanInv(owners, seen, scan) && Disjoint(seen, scan.mine)
    requires scan.todo == [] && scan.created == []
    ensures Linked(owners, seen.Plus(scan.mine))
  {
    var t, owner := seen.Plus(scan.mine), owners[scan.search];
    forall user: nat, key
      ensures Alert(user, key) in t.alerts <==> Entitled(owners, t.attributions, user, key)
    {
      if Entitled(owners, t.attributions, user, key) {
        var s :| s in owners && owners[s] == Some(user) && Attribution(s, key) in t.attributions;
        if Attribution(s, key) in seen.attributions {
          assert Entitled(owners, seen.attributions, user, key);
        }
      }
      if Alert(user, key) in seen.alerts {
        var s :| s in owners && owners[s] == Some(user) && Attribution(s, key) in seen.attributions;
        assert Attribution(s, key) in t.attributions;
      }
    }
    forall key
      ensures t.ownerless[key] == |OwnerlessSearches(owners, t.attributions, key)|
    {
      var before, after := OwnerlessSearches(owners, seen.attributions, key), OwnerlessSearches(owners, t.attributions, key);
      if owner.None? && Attribution(scan.search, key) in scan.mine.attributions {
        assert after == before + {scan.search};
      } else {
        assert after == before;
      }
    }
  }

  // ---------------------------------------------------------------- steps

  /** Putting back a scan that wrote nothing another transaction has written. */
  lemma ReplaceScan(s: State, w: nat, next: Scan)
    requires Inv(s) && ScanInv(s.owners, s.tables, next) && Disjoint(s.tables, next.mine)
    requires forall v | v in s.open && v != w :: Disjoint(s.open[v].mine, next.mine)
    ensures Inv(s.(open := s.open[w := next]))
  {
    var t := s.(open := s.open[w := next]);
    forall v | v in t.open
      ensures ScanInv(t.owners, t.tables, t.open[v]) && Disjoint(t.tables, t.open[v].mine)
    {
    }
    forall u, v | u in t.open && v in t.open && u != v
      ensures Disjoint(t.open[u].mine, t.open[v].mine)
    {
      if v == w {
        assert Disjoint(s.open[u].mine, next.mine);
      } else if u == w {
        assert Disjoint(s.open[v].mine, next.mine);
      } else {
        assert Disjoint(s.open[u].mine, s.open[v].mine);
      }
    }
  }

  lemma DiscoverStaysApart(seen: Tables, scan: Scan, other: Tables)
    requires scan.todo != [] && Disjoint(other, scan.mine)
    requires scan.phase == InsertingListing && scan.todo[0] in other.listings ==> scan.todo[0] in seen.listings
    requires var a := Attribution(scan.search, scan.todo[0]);
             scan.phase == InsertingAttribution && a in other.attributions ==> a in seen.attributions
    ensures Disjoint(other, DiscoverNext(seen, scan).mine)
  {
  }

  lemma DiscoverMissesOthers(s: State, w: nat, v: nat)
    requires Enabled(s, Discover(w)) && v in s.open && v != w
    requires Disjoint(s.open[v].mine, s.open[w].mine)
    ensures Disjoint(s.open[v].mine, DiscoverNext(s.tables, s.open[w]).mine)
  {
    DiscoverStaysApart(s.tables, s.open[w], s.open[v].mine);
  }

  lemma DiscoverKeepsScan(owners: Owners, seen: Tables, scan: Scan)
    requires ScanInv(owners, seen, scan) && scan.todo != []
    ensures ScanInv(owners, seen, DiscoverNext(seen, scan))
  {
    DiscoverKeepsMatches(seen, scan);
    DiscoverKeepsAlerts(owners[scan.search], seen, scan);
  }

  lemma DiscoverStep(s: State, w: nat)
    requires Inv(s) && Enabled(s, Discover(w))
    ensures Inv(Apply(s, Discover(w)))
  {
    var scan := s.open[w];
    DiscoverKeepsScan(s.owners, s.tables, scan);
    DiscoverStaysApart(s.tables, scan, s.tables);
    forall v | v in s.open && v != w
      ensures Disjoint(s.open[v].mine, DiscoverNext(s.tables, scan).mine)
    {
      DiscoverMissesOthers(s, w, v);
    }
    ReplaceScan(s, w, DiscoverNext(s.tables, scan));
  }

  lemma EnqueueStaysApart(seen: Tables, scan: Scan, owner: Option<nat>, other: Tables)
    requires scan.created != [] && Disjoint(other, scan.mine)
    requires owner.Some? && scan.inserting && Alert(owner.value, scan.created[0]) in other.alerts ==>
               Alert(owner.value, scan.created[0]) in seen.alerts
    ensures Disjoint(other, EnqueueNext(seen, scan, owner).mine)
  {
  }

  lemma EnqueueStep(s: State, w: nat)
    requires Inv(s) && Enabled(s, Enqueue(w))
    ensures Inv(Apply(s, Enqueue(w)))
  {
    var scan := s.open[w];
    assert ScanInv(s.owners, s.tables, scan);
    var owner := s.owners[scan.search];
    var next := EnqueueNext(s.tables, scan, owner);
    EnqueueKeepsAlerts(owner, s.tables, scan);
    EnqueueKeepsMatches(owner, s.tables, scan);
    EnqueueStaysApart(s.tables, scan, owner, s.tables);
    forall v | v in s.open && v != w
      ensures Disjoint(s.open[v].mine, next.mine)
    {
      assert Disjoint(s.open[v].mine, scan.mine);
      EnqueueStaysApart(s.tables, scan, owner, s.open[v].mine);
    }
    ReplaceScan(s, w, next);
  }

  lemma CommitStep(s: State, w: nat)
    requires Inv(s) && Enabled(s, Commit(w))
    ensures Inv(Apply(s, Commit(w)))
  {
    var scan, t := s.open[w], Apply(s, Commit(w));
    LinksOfCommit(s.owners, s.tables, scan);
    forall v | v in t.open
      ensures ScanInv(t.owners, t.tables, t.open[v]) && Disjoint(t.tables, t.open[v].mine)
    {
      SeenGrows(s.owners, s.tables, scan.mine, s.open[v]);
      assert Disjoint(scan.mine, s.open[v].mine);
    }
    assert Handled(scan) == scan.asked;
    assert t.tables.attributions == t.done;
    assert t.tables.listings == (set a | a in t.done :: a.key) by {
      forall k | k in t.tables.listings
        ensures k in (set a | a in t.done :: a.key)
      {
        if k in scan.mine.listings {
          assert Attribution(scan.search, k) in t.done;
        }
      }
    }
  }

  lemma CreateSearchStep(s: State, search: nat, owner: Option<nat>)
    requires Inv(s) && search !in s.owners
    ensures Inv(Apply(s, CreateSearch(search, owner)))
  {
    LinksOfNewSearch(s.owners, s.tables, search, owner);
    forall w | w in s.open
      ensures ScanInv(s.owners[search := owner], s.tables, s.open[w])
    {
      OwnersGrow(s.owners, s.tables, s.open[w], search, owner);
    }
  }

  lemma StartStep(s: State, w: nat, search: nat, keys: seq<Key>)
    requires Inv(s) && w !in s.open && search in s.owners
    ensures Inv(Apply(s, Start(w, search, keys)))
  {
    var scan := Scan(search, keys, keys, Idle, [], false, NOTHING);
    assert Handled(scan) == [];
    assert ScanInv(s.owners, s.tables, scan);
    ReplaceScan(s, w, scan);
  }

  lemma AbortStep(s: State, w: nat)
    requires Inv(s)
    ensures Inv(Apply(s, Abort(w)))
  {
    var t := Apply(s, Abort(w));
    forall u, v | u in t.open && v in t.open && u != v
      ensures Disjoint(t.open[u].mine, t.open[v].mine)
    {
      assert Disjoint(s.open[u].mine, s.open[v].mine);
    }
  }

  lemma StepKeepsInv(s: State, e: Step)
    requires Inv(s) && Enabled(s, e)
    ensures Inv(Apply(s, e))
  {
    match e
    case CreateSearch(search, owner) => CreateSearchStep(s, search, owner);
    case Start(w, search, keys) => StartStep(s, w, search, keys);
    case Discover(w) => DiscoverStep(s, w);
    case Enqueue(w) => EnqueueStep(s, w);
    case Commit(w) => CommitStep(s, w);
    case Abort(w) => AbortStep(s, w);
  }

  lemma {:induction false} RunsKeepInv(run: seq<Step>)
    requires Legal(run)
    ensures Inv(Replay(run))
  {
    if run == [] {
      assert forall key :: OwnerlessSearches(map[], {}, key) == {};
    } else {
      RunsKeepInv(run[..|run| - 1]);
      StepKeepsInv(Replay(run[..|run| - 1]), run[|run| - 1]);
    }
  }

  // ----------------------------------------------------------------- laws

  /** After any run, whatever raced: a user has exactly one outbox row for a
      listing if a search of theirs matched it and none otherwise, and the
      ownerless rows number the ownerless searches that matched. */
  lemma OutboxFollowsMatches(run: seq<Step>)
    requires Legal(run)
    ensures Linked(Replay(run).owners, Replay(run).tables)
    ensures Replay(run).tables.attributions == Replay(run).done
  {
    RunsKeepInv(run);
  }

  /** Confluence: runs that committed the same matches, in whatever order and
      however their inserts raced, leave the same tables. */
  lemma SameMatchesSameTables(run: seq<Step>, other: seq<Step>)
    requires Legal(run) && Legal(other)
    requires Replay(run).owners == Replay(other).owners && Replay(run).done == Replay(other).done
    ensures Replay(run).tables == Replay(other).tables
  {
    RunsKeepInv(run);
    RunsKeepInv(other);
    MatchesDecideTheOutbox(Replay(run).owners, Replay(run).tables, Replay(other).tables);
  }
}
