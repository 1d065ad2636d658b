/** Sharing marketplace answers between the searches of one scan pass.

    The marketplaces are a function from requests to answers that stays the same
    during a pass. With that, a pass through a `ScanFetchCache` does to the
    database and to the reported results exactly what a pass without one does. */
module Coalescing {

  import opened Sql
  import opened ScanTables
  import P = ScanPipeline

  datatype Details = Details(key: Key, text: string)

  /** A fetched listing is an object: whoever holds it can change it. */
  class Listing {
    var details: Details

    constructor (details: Details)
      ensures this.details == details
    {
      this.details := details;
    }
  }

  datatype Request = Request(marketplace: string, query: string)

  /** `MarketplaceConnectorError` and everything else. */
  datatype Failure = ConnectorError(message: string) | UnexpectedError

  datatype Answer = Found(found: seq<Details>) | Failed(failure: Failure)

  type Market = Request -> Answer

  /** What a fetch hands to its caller: objects, or an exception. */
  datatype Fetched = Fetched(listings: seq<Listing>) | Raised(failure: Failure)

  ghost predicate Describe(listings: seq<Listing>, found: seq<Details>)
    reads listings
  {
    && |listings| == |found|
    && Distinct(listings)
    && forall i | 0 <= i < |found| :: listings[i].details == found[i]
  }

  ghost predicate Answers(f: Fetched, answer: Answer)
    reads if f.Fetched? then f.listings else []
  {
    match answer
    case Found(found) => f.Fetched? && Describe(f.listings, found)
    case Failed(failure) => f == Raised(failure)
  }

  method Build(found: seq<Details>) returns (listings: seq<Listing>)
    ensures fresh(listings) && Describe(listings, found)
  {
    listings := [];
    for i := 0 to |found|
      invariant |listings| == i && fresh(listings) && Describe(listings, found[..i])
    {
      var listing := new Listing(found[i]);
      listings := listings + [listing];
    }
    assert found[..|found|] == found;
  }

  /** `connector.search`: new objects every time. */
  method Search(market: Market, request: Request) returns (f: Fetched)
    ensures Answers(f, market(request))
    ensures f.Fetched? ==> fresh(f.listings)
  {
    match market(request)
    case Found(found) =>
      var listings := Build(found);
      f := Fetched(listings);
    case Failed(failure) => f := Raised(failure);
  }

  method DeepCopies(listings: seq<Listing>, ghost found: seq<Details>) returns (copies: seq<Listing>)
    requires Describe(listings, found)
    ensures fresh(copies) && Describe(copies, found)
  {
    copies := [];
    for i := 0 to |listings|
      invariant |copies| == i && fresh(copies) && Describe(copies, found[..i])
    {
      var listing := new Listing(listings[i].details);
      copies := copies + [listing];
    }
    assert found[..|found|] == found;
  }

  class ScanFetchCache {
    var entries: map<Request, Fetched>
    var fetches: nat
    var reused: nat
    ghost var held: set<Listing>

    ghost predicate Valid(market: Market)
      reads this, held
    {
      && fetches == |entries|
      && (forall r | r in entries && entries[r].Fetched? :: forall l | l in entries[r].listings :: l in held)
      && (forall r | r in entries :: Answers(entries[r], market(r)))
    }

    constructor (market: Market)
      ensures Valid(market)
      ensures entries == map[] && fetches == 0 && reused == 0 && held == {}
    {
      entries, fetches, reused, held := map[], 0, 0, {};
    }

    method FirstFetch(market: Market, request: Request)
      requires Valid(market) && request !in entries
      modifies this
      ensures Valid(market) && entries.Keys == old(entries.Keys) + {request}
      ensures fetches == old(fetches) + 1 && reused == old(reused)
    {
      var entry := Search(market, request);
      Remember(market, request, entry);
    }

    method Remember(market: Market, request: Request, entry: Fetched)
      requires Valid(market) && request !in entries && Answers(entry, market(request))
      modifies this
      ensures Valid(market) && entries.Keys == old(entries.Keys) + {request}
      ensures fetches == old(fetches) + 1 && reused == old(reused)
    {
      if entry.Fetched? {
        held := held + Elements(entry.listings);
      }
      ghost var was := entries.Keys;
      entries := entries[request := entry];
      fetches := fetches + 1;
      assert entries.Keys == was + {request};
    }

    /** One marketplace search per distinct request; every caller gets objects
        of its own, which the cache does not keep. */
    method Fetch(market: Market, request: Request) returns (f: Fetched)
      requires Valid(market)
      modifies this
      ensures Valid(market) && entries.Keys == old(entries.Keys) + {request}
      ensures Answers(f, market(request))
      ensures f.Fetched? ==> fresh(f.listings) && Elements(f.listings) !! held
      ensures fetches + reused == old(fetches + reused) + 1
    {
      if request !in entries {
        FirstFetch(market, request);
      } else {
        reused := reused + 1;
      }
      match entries[request]
      case Fetched(listings) =>
        var copies := DeepCopies(listings, market(request).found);
        f := Fetched(copies);
      case Raised(failure) => f := Raised(failure);
    }
  }

  /** A caller that scribbles over what it was given spoils nobody's answer. */
  method ScribbleAndFetchAgain(cache: ScanFetchCache, market: Market, request: Request, scribble: Details) returns (again: Fetched)
    requires cache.Valid(market)
    modifies cache
    ensures cache.Valid(market) && Answers(again, market(request))
  {
    var f := cache.Fetch(market, request);
    if f.Fetched? {
      for i := 0 to |f.listings|
        modifies f.listings
        invariant cache.Valid(market) && Elements(f.listings) !! cache.held
      {
        f.listings[i].details := scribble;
      }
    }
    again := cache.Fetch(market, request);
  }

  // -------------------------------------------------- runs, specification

  /** `MarketplaceRunResult`. */
  datatype MarketplaceRun = MarketplaceRun(
    marketplace: string,
    created: nat,
    seen: nat,
    error: Option<string>,
    raw: nat,
    rejected: nat)

  /** A search due in this pass. */
  datatype Due = Due(search: nat, owner: Option<nat>, query: string, marketplaces: seq<string>)

  /** Whether a listing is relevant to a query. */
  type Relevance = (string, Details) -> bool

  const UNEXPECTED := "An unexpected error occurred"

  /** The keys of the relevant listings, in order. */
  function Kept(relevant: Relevance, query: string, found: seq<Details>): (r: seq<Key>)
    ensures |r| <= |found|
  {
    if found == [] then []
    else
      var n := |found| - 1;
      Kept(relevant, query, found[..n]) + if relevant(query, found[n]) then [found[n].key] else []
  }

  /** What the search finds on one marketplace, or why it failed there. */
  function StoreAfter(db: P.Store, market: Market, relevant: Relevance, due: Due, marketplace: string, now: int): P.Store {
    match market(Request(marketplace, due.query))
    case Failed(_) => db
    case Found(found) => P.Scanned(db, due.search, due.owner, Kept(relevant, due.query, found), now)
  }

  function Reported(db: P.Store, market: Market, relevant: Relevance, due: Due, marketplace: string): MarketplaceRun {
    match market(Request(marketplace, due.query))
    case Failed(ConnectorError(message)) => MarketplaceRun(marketplace, 0, 0, Some(message), 0, 0)
    case Failed(UnexpectedError) => MarketplaceRun(marketplace, 0, 0, Some(UNEXPECTED), 0, 0)
    case Found(found) =>
      var kept := Kept(relevant, due.query, found);
      var report := P.Report(db, kept, Some(due.search));
      MarketplaceRun(marketplace, |report.created|, report.seen, None, |found|, |found| - |kept|)
  }

  /** The first `n` marketplaces of a search. */
  function SearchStore(db: P.Store, market: Market, relevant: Relevance, due: Due, now: int, n: nat): P.Store
    requires n <= |due.marketplaces|
  {
    if n == 0 then db
    else StoreAfter(SearchStore(db, market, relevant, due, now, n - 1), market, relevant, due, due.marketplaces[n - 1], now)
  }

  function SearchRuns(db: P.Store, market: Market, relevant: Relevance, due: Due, now: int, n: nat): seq<MarketplaceRun>
    requires n <= |due.marketplaces|
  {
    if n == 0 then []
    else
      SearchRuns(db, market, relevant, due, now, n - 1)
      + [Reported(SearchStore(db, market, relevant, due, now, n - 1), market, relevant, due, due.marketplaces[n - 1])]
  }

  function Requests(due: Due, n: nat): (r: seq<Request>)
    requires n <= |due.marketplaces|
    ensures |r| == n
  {
    if n == 0 then [] else Requests(due, n - 1) + [Request(due.marketplaces[n - 1], due.query)]
  }

  lemma NoRequests(due: Due)
    ensures Requests(due, 0) == [] && Elements(Requests(due, 0)) == {}
  {
  }

  lemma OneMoreRequest(due: Due, i: nat)
    requires i < |due.marketplaces|
    ensures Elements(Requests(due, i + 1)) == Elements(Requests(due, i)) + Elements([Request(due.marketplaces[i], due.query)])
  {
    ElementsAppend(Requests(due, i), [Request(due.marketplaces[i], due.query)]);
  }

  /** A whole pass. */
  function PassStore(db: P.Store, market: Market, relevant: Relevance, dues: seq<Due>, now: int): P.Store {
    if dues == [] then db
    else
      var n := |dues| - 1;
      SearchStore(PassStore(db, market, relevant, dues[..n], now), market, relevant, dues[n], now, |dues[n].marketplaces|)
  }

  function PassRuns(db: P.Store, market: Market, relevant: Relevance, dues: seq<Due>, now: int): seq<seq<MarketplaceRun>> {
    if dues == [] then []
    else
      var n := |dues| - 1;
      PassRuns(db, market, relevant, dues[..n], now)
      + [SearchRuns(PassStore(db, market, relevant, dues[..n], now), market, relevant, dues[n], now, |dues[n].marketplaces|)]
  }

  function PassRequests(dues: seq<Due>): seq<Request> {
    if dues == [] then []
    else var n := |dues| - 1; PassRequests(dues[..n]) + Requests(dues[n], |dues[n].marketplaces|)
  }

  // --------------------------------------------------------- runs, methods

  method FilterRelevant(relevant: Relevance, query: string, listings: seq<Listing>, ghost found: seq<Details>) returns (kept: seq<Key>)
    requires Describe(listings, found)
    ensures kept == Kept(relevant, query, found)
  {
    kept := [];
    for i := 0 to |listings|
      invariant kept == Kept(relevant, query, found[..i])
    {
      assert found[..i + 1][..i] == found[..i];
      if relevant(query, listings[i].details) {
        kept := kept + [listings[i].details.key];
      }
    }
    assert found[..|found|] == found;
  }

  /** `cache` holds answers to `keys` and has served `calls` calls. */
  ghost predicate Served(cache: ScanFetchCache, market: Market, keys: set<Request>, calls: nat)
    reads cache, cache.held
  {
    cache.Valid(market) && cache.entries.Keys == keys && cache.fetches + cache.reused == calls
  }

  method FetchFor(market: Market, cache: ScanFetchCache?, request: Request) returns (f: Fetched)
    requires cache != null ==> cache.Valid(market)
    modifies cache
    ensures Answers(f, market(request))
    ensures cache != null ==>
              Served(cache, market,
                     old(cache.entries.Keys) + Elements([request]),
                     old(cache.fetches + cache.reused) + |[request]|)
  {
    if cache == null {
      f := Search(market, request);
    } else {
      f := cache.Fetch(market, request);
    }
  }

  method RunOneMarketplace(
    database: P.Database, market: Market, relevant: Relevance, cache: ScanFetchCache?, due: Due, marketplace: string, now: int)
    returns (run: MarketplaceRun)
    requires cache != null ==> cache.Valid(market)
    modifies database, cache
    ensures database.Contents() == StoreAfter(old(database.Contents()), market, relevant, due, marketplace, now)
    ensures run == Reported(old(database.Contents()), market, relevant, due, marketplace)
    ensures forall s: nat, key :: Attribution(s, key) in database.attributions <==>
              Attribution(s, key) in old(database.attributions) || (s == due.search && Finds(market, relevant, due, marketplace, key))
    ensures var answer := market(Request(marketplace, due.query));
            answer.Found? ==> run.raw == |answer.found| && run.rejected == |Irrelevant(relevant, due.query, answer.found)|
    ensures cache != null ==>
              Served(cache, market,
                     old(cache.entries.Keys) + Elements([Request(marketplace, due.query)]),
                     old(cache.fetches + cache.reused) + |[Request(marketplace, due.query)]|)
  {
    hide ScanFetchCache.Valid, P.Scanned, P.Report, Kept, Finds, FindsAmong, Irrelevant;
    MarketplaceRunTells(database.Contents(), market, relevant, due, marketplace);
    var fetched := FetchFor(market, cache, Request(marketplace, due.query));
    match fetched {
    case Raised(ConnectorError(message)) => run := MarketplaceRun(marketplace, 0, 0, Some(message), 0, 0);
    case Raised(UnexpectedError) => run := MarketplaceRun(marketplace, 0, 0, Some(UNEXPECTED), 0, 0);
    case Fetched(listings) =>
      var kept := FilterRelevant(relevant, due.query, listings, market(Request(marketplace, due.query)).found);
      var result := database.Scan(due.search, due.owner, kept, now);
      run := MarketplaceRun(marketplace, |result.created|, result.seen, None, |listings|, |listings| - |kept|);
    }
    forall s: nat, key: Key
      ensures Attribution(s, key) in database.attributions <==>
              Attribution(s, key) in old(database.attributions) || (s == due.search && Finds(market, relevant, due, marketplace, key))
    {
      RelevantListingsAreStored(old(database.Contents()), market, relevant, due, marketplace, now, key);
    }
  }

  /** `SavedSearchRunner.run`, up to the stamp. */
  method Run(database: P.Database, market: Market, relevant: Relevance, cache: ScanFetchCache?, due: Due, now: int)
    returns (runs: seq<MarketplaceRun>)
    requires cache != null ==> cache.Valid(market)
    modifies database, cache
    ensures database.Contents() == SearchStore(old(database.Contents()), market, relevant, due, now, |due.marketplaces|)
    ensures runs == SearchRuns(old(database.Contents()), market, relevant, due, now, |due.marketplaces|)
    ensures cache != null ==>
              Served(cache, market,
                     old(cache.entries.Keys) + Elements(Requests(due, |due.marketplaces|)),
                     old(cache.fetches + cache.reused) + |Requests(due, |due.marketplaces|)|)
  {
    hide StoreAfter, Reported, Requests, ScanFetchCache.Valid, Elements;
    ghost var start := database.Contents();
    ghost var keys, calls := if cache == null then {} else cache.entries.Keys, if cache == null then 0 else cache.fetches + cache.reused;
    runs := [];
    NoRequests(due);
    for i := 0 to |due.marketplaces|
      invariant database.Contents() == SearchStore(start, market, relevant, due, now, i)
      invariant runs == SearchRuns(start, market, relevant, due, now, i)
      invariant cache != null ==> Served(cache, market, keys + Elements(Requests(due, i)), calls + |Requests(due, i)|)
    {
      OneMoreRequest(due, i);
      var run := RunOneMarketplace(database, market, relevant, cache, due, due.marketplaces[i], now);
      runs := runs + [run];
    }
  }

  /** A pass over the due searches, sharing answers when it has a cache: the
      contract for the database and the results does not mention the cache. */
  method RunPass(database: P.Database, market: Market, relevant: Relevance, cache: ScanFetchCache?, dues: seq<Due>, now: int)
    returns (runs: seq<seq<MarketplaceRun>>)
    requires cache != null ==> cache.Valid(market)
    modifies database, cache
    ensures database.Contents() == PassStore(old(database.Contents()), market, relevant, dues, now)
    ensures runs == PassRuns(old(database.Contents()), market, relevant, dues, now)
    ensures cache != null ==>
              Served(cache, market,
                     old(cache.entries.Keys) + Elements(PassRequests(dues)),
                     old(cache.fetches + cache.reused) + |PassRequests(dues)|)
  {
    hide SearchStore, SearchRuns, ScanFetchCache.Valid, Elements;
    runs := [];
    ElementsAppend<Request>([], []);
    assert dues[..0] == [];
    for i := 0 to |dues|
      invariant database.Contents() == PassStore(old(database.Contents()), market, relevant, dues[..i], now)
      invariant runs == PassRuns(old(database.Contents()), market, relevant, dues[..i], now)
      invariant cache != null ==>
                Served(cache, market,
                       old(cache.entries.Keys) + Elements(PassRequests(dues[..i])),
                       old(cache.fetches + cache.reused) + |PassRequests(dues[..i])|)
    {
      assert dues[..i + 1][..i] == dues[..i];
      ElementsAppend(PassRequests(dues[..i]), Requests(dues[i], |dues[i].marketplaces|));
      var run := Run(database, market, relevant, cache, dues[i], now);
      runs := runs + [run];
    }
    assert dues[..|dues|] == dues;
  }

  /** A pass with a cache of its own asks every distinct (marketplace, query)
      once; the other calls are reuse. */
  method CoalescedPass(database: P.Database, market: Market, relevant: Relevance, dues: seq<Due>, now: int)
    returns (runs: seq<seq<MarketplaceRun>>, fetches: nat, reused: nat)
    modifies database
    ensures database.Contents() == PassStore(old(database.Contents()), market, relevant, dues, now)
    ensures runs == PassRuns(old(database.Contents()), market, relevant, dues, now)
    ensures fetches == |Elements(PassRequests(dues))|
    ensures fetches + reused == |PassRequests(dues)|
  {
    var cache := new ScanFetchCache(market);
    runs := RunPass(database, market, relevant, cache, dues, now);
    assert cache.entries.Keys == Elements(PassRequests(dues));
    fetches, reused := cache.fetches, cache.reused;
  }

  // ----------------------------------------------------------------- laws

  ghost predicate FindsAmong(relevant: Relevance, query: string, found: seq<Details>, key: Key) {
    exists i | 0 <= i < |found| :: found[i].key == key && relevant(query, found[i])
  }

  /** The marketplace answers the search's query with a relevant listing. */
  ghost predicate Finds(market: Market, relevant: Relevance, due: Due, marketplace: string, key: Key) {
    var answer := market(Request(marketplace, due.query));
    answer.Found? && FindsAmong(relevant, due.query, answer.found, key)
  }

  ghost function Irrelevant(relevant: Relevance, query: string, found: seq<Details>): set<int> {
    set i | 0 <= i < |found| && !relevant(query, found[i])
  }

  lemma {:induction false} KeptAreTheRelevant(relevant: Relevance, query: string, found: seq<Details>, key: Key)
    ensures key in Kept(relevant, query, found) <==> FindsAmong(relevant, query, found, key)
  {
    if found != [] {
      var n := |found| - 1;
      KeptAreTheRelevant(relevant, query, found[..n], key);
      if FindsAmong(relevant, query, found[..n], key) {
        var i :| 0 <= i < n && found[..n][i].key == key && relevant(query, found[..n][i]);
        assert found[i].key == key && relevant(query, found[i]);
      }
    }
  }

  lemma IrrelevantAppend(relevant: Relevance, query: string, found: seq<Details>, last: Details)
    ensures |Irrelevant(relevant, query, found + [last])| == |Irrelevant(relevant, query, found)| + if relevant(query, last) then 0 else 1
  {
    if relevant(query, last) {
      assert Irrelevant(relevant, query, found + [last]) == Irrelevant(relevant, query, found);
    } else {
      assert Irrelevant(relevant, query, found + [last]) == Irrelevant(relevant, query, found) + {|found|};
    }
  }

  lemma {:induction false} KeptLeavesOutTheIrrelevant(relevant: Relevance, query: string, found: seq<Details>)
    ensures |found| - |Kept(relevant, query, found)| == |Irrelevant(relevant, query, found)|
  {
    if found != [] {
      var n := |found| - 1;
      KeptLeavesOutTheIrrelevant(relevant, query, found[..n]);
      IrrelevantAppend(relevant, query, found[..n], found[n]);
      assert found == found[..n] + [found[n]];
    }
  }

  /** One marketplace of one search. The relevant listings of the answer, and
      they alone, are stored, attributed to the search and alerted to its owner;
      an answer that fails leaves the tables alone and is told in the report. */
  lemma RelevantListingsAreStored(
    db: P.Store, market: Market, relevant: Relevance, due: Due, marketplace: string, now: int, key: Key)
    ensures var after, finds := StoreAfter(db, market, relevant, due, marketplace, now), Finds(market, relevant, due, marketplace, key);
            && (key in after.rows <==> key in db.rows || finds)
            && (forall s: nat :: Attribution(s, key) in after.attributions <==>
                  Attribution(s, key) in db.attributions || (s == due.search && finds))
            && (forall user: nat :: Alert(user, key) in after.alerts <==>
                  || Alert(user, key) in db.alerts
                  || (due.owner == Some(user) && finds && Attribution(due.search, key) !in db.attributions))
            && after.ownerless[key] == db.ownerless[key] +
               if due.owner == None && finds && Attribution(due.search, key) !in db.attributions then 1 else 0
    ensures market(Request(marketplace, due.query)).Failed? ==> StoreAfter(db, market, relevant, due, marketplace, now) == db
  {
    var answer := market(Request(marketplace, due.query));
    if answer.Found? {
      var kept := Kept(relevant, due.query, answer.found);
      KeptAreTheRelevant(relevant, due.query, answer.found, key);
      P.ScanWrites(db, due.search, due.owner, kept, now, key);
    }
  }

  lemma MarketplaceRunTells(db: P.Store, market: Market, relevant: Relevance, due: Due, marketplace: string)
    ensures var run := Reported(db, market, relevant, due, marketplace);
            run.marketplace == marketplace &&
            match market(Request(marketplace, due.query))
            case Found(found) =>
              && run.error == None && run.raw == |found|
              && run.rejected == |Irrelevant(relevant, due.query, found)|
              && run.created + run.seen + run.rejected == run.raw
              && run.created == |set i | 0 <= i < |found| && relevant(due.query, found[i]) && found[i].key !in db.rows :: found[i].key|
            case Failed(failure) =>
              && run.raw == run.rejected == run.created == run.seen == 0
              && run.error == Some(if failure.ConnectorError? then failure.message else "An unexpected error occurred")
  {
    var answer := market(Request(marketplace, due.query));
    if answer.Found? {
      var found := answer.found;
      var kept := Kept(relevant, due.query, found);
      KeptLeavesOutTheIrrelevant(relevant, due.query, found);
      P.ReportIsExact(db, kept, due.search);
      DistinctCount(P.Report(db, kept, Some(due.search)).created);
      var newKeys := set i | 0 <= i < |found| && relevant(due.query, found[i]) && found[i].key !in db.rows :: found[i].key;
      forall key
        ensures key in Elements(kept) <==> FindsAmong(relevant, due.query, found, key)
      {
        KeptAreTheRelevant(relevant, due.query, found, key);
      }
      assert Elements(kept) - db.rows.Keys == newKeys;
    }
  }

  lemma {:induction false} SearchKeepsLinks(owners: Owners, db: P.Store, market: Market, relevant: Relevance, due: Due, now: int, n: nat)
    requires Linked(owners, db.View()) && n <= |due.marketplaces|
    requires due.search in owners && owners[due.search] == due.owner
    ensures Linked(owners, SearchStore(db, market, relevant, due, now, n).View())
  {
    if n > 0 {
      SearchKeepsLinks(owners, db, market, relevant, due, now, n - 1);
      var here := SearchStore(db, market, relevant, due, now, n - 1);
      match market(Request(due.marketplaces[n - 1], due.query))
      case Failed(_) =>
      case Found(found) => P.ScanKeepsLinks(owners, here, due.search, Kept(relevant, due.query, found), now);
    }
  }

  /** Over whole passes the outbox stays exactly what the matches entitle to. */
  lemma {:induction false} PassKeepsLinks(owners: Owners, db: P.Store, market: Market, relevant: Relevance, dues: seq<Due>, now: int)
    requires Linked(owners, db.View())
    requires forall d | d in dues :: d.search in owners && owners[d.search] == d.owner
    ensures Linked(owners, PassStore(db, market, relevant, dues, now).View())
  {
    if dues != [] {
      var n := |dues| - 1;
      PassKeepsLinks(owners, db, market, relevant, dues[..n], now);
      SearchKeepsLinks(owners, PassStore(db, market, relevant, dues[..n], now), market, relevant, dues[n], now, |dues[n].marketplaces|);
    }
  }

  lemma {:induction false} SearchStoresExactly(
    db: P.Store, market: Market, relevant: Relevance, due: Due, now: int, n: nat, s: nat, key: Key)
    requires n <= |due.marketplaces|
    ensures var after := SearchStore(db, market, relevant, due, now, n);
            Attribution(s, key) in after.attributions <==>
            || Attribution(s, key) in db.attributions
            || (s == due.search && exists m | 0 <= m < n :: Finds(market, relevant, due, due.marketplaces[m], key))
  {
    hide StoreAfter, Finds;
    if n > 0 {
      SearchStoresExactly(db, market, relevant, due, now, n - 1, s, key);
      RelevantListingsAreStored(
        SearchStore(db, market, relevant, due, now, n - 1), market, relevant, due, due.marketplaces[n - 1], now, key);
    }
  }

  /** A due search of the pass finds the listing on one of its marketplaces. */
  ghost predicate FindsIn(market: Market, relevant: Relevance, due: Due, s: nat, key: Key) {
    due.search == s && exists m | 0 <= m < |due.marketplaces| :: Finds(market, relevant, due, due.marketplaces[m], key)
  }

  ghost predicate PassFinds(market: Market, relevant: Relevance, dues: seq<Due>, s: nat, key: Key) {
    exists d | d in dues :: FindsIn(market, relevant, d, s, key)
  }

  lemma NothingFound(market: Market, relevant: Relevance, s: nat, key: Key)
    ensures !PassFinds(market, relevant, [], s, key)
  {
  }

  lemma PassFindsAppend(market: Market, relevant: Relevance, dues: seq<Due>, last: Due, s: nat, key: Key)
    ensures PassFinds(market, relevant, dues + [last], s, key) <==>
            PassFinds(market, relevant, dues, s, key) || FindsIn(market, relevant, last, s, key)
  {
    hide FindsIn;
    assert last in dues + [last];
    assert forall d :: d in dues ==> d in dues + [last];
  }

  /** After a pass a search has matched what it had matched before and what it
      finds now on its own marketplaces, nothing of any other search. */
  lemma {:induction false} PassMatchesExactly(
    db: P.Store, market: Market, relevant: Relevance, dues: seq<Due>, now: int, s: nat, key: Key)
    ensures Attribution(s, key) in PassStore(db, market, relevant, dues, now).attributions <==>
            Attribution(s, key) in db.attributions || PassFinds(market, relevant, dues, s, key)
  {
    hide SearchStore, Finds, PassFinds;
    if dues == [] {
      NothingFound(market, relevant, s, key);
    }
    if dues != [] {
      var n := |dues| - 1;
      PassFindsAppend(market, relevant, dues[..n], dues[n], s, key);
      assert dues == dues[..n] + [dues[n]];
      PassMatchesExactly(db, market, relevant, dues[..n], now, s, key);
      SearchStoresExactly(PassStore(db, market, relevant, dues[..n], now), market, relevant, dues[n], now, |dues[n].marketplaces|, s, key);
    }
  }

  /** Every marketplace of every due search is reported, in order, each from the
      tables as it found them. */
  lemma {:induction false} SearchReportsInOrder(
    db: P.Store, market: Market, relevant: Relevance, due: Due, now: int, n: nat)
    requires n <= |due.marketplaces|
    ensures |SearchRuns(db, market, relevant, due, now, n)| == n
    ensures forall m | 0 <= m < n ::
              SearchRuns(db, market, relevant, due, now, n)[m] ==
              Reported(SearchStore(db, market, relevant, due, now, m), market, relevant, due, due.marketplaces[m])
  {
    hide Reported, SearchStore;
    if n > 0 {
      SearchReportsInOrder(db, market, relevant, due, now, n - 1);
    }
  }

  lemma {:induction false} PassReportsInOrder(db: P.Store, market: Market, relevant: Relevance, dues: seq<Due>, now: int)
    ensures |PassRuns(db, market, relevant, dues, now)| == |dues|
    ensures forall i | 0 <= i < |dues| ::
              PassRuns(db, market, relevant, dues, now)[i] ==
              SearchRuns(PassStore(db, market, relevant, dues[..i], now), market, relevant, dues[i], now, |dues[i].marketplaces|)
  {
    hide SearchRuns, PassStore;
    if dues != [] {
      var n := |dues| - 1;
      PassReportsInOrder(db, market, relevant, dues[..n], now);
      assert forall i | 0 <= i <= n :: dues[..n][..i] == dues[..i];
    }
  }

  /** Marketplace `m` of due search `i` is asked the search's own query. */
  ghost function Asked(dues: seq<Due>): set<(int, int)> {
    set i, m | 0 <= i < |dues| && 0 <= m < |dues[i].marketplaces| :: (i, m)
  }

  lemma {:induction false} SearchAsks(due: Due, n: nat, request: Request)
    requires n <= |due.marketplaces|
    ensures request in Requests(due, n) <==> exists m | 0 <= m < n :: request == Request(due.marketplaces[m], due.query)
  {
    if n > 0 {
      SearchAsks(due, n - 1, request);
    }
  }

  ghost predicate AsksFor(due: Due, request: Request) {
    due.query == request.query && request.marketplace in due.marketplaces
  }

  ghost predicate PassAsksFor(dues: seq<Due>, request: Request) {
    exists d | d in dues :: AsksFor(d, request)
  }

  lemma {:induction false} PairsOfRow(i: int, n: nat)
    ensures |set m | 0 <= m < n :: (i, m)| == n
  {
    if n == 0 {
      assert (set m | 0 <= m < n :: (i, m)) == {};
    } else {
      PairsOfRow(i, n - 1);
      assert (set m | 0 <= m < n :: (i, m)) == (set m | 0 <= m < n - 1 :: (i, m)) + {(i, n - 1)};
    }
  }

  lemma NothingAsked()
    ensures |Asked([])| == 0
  {
    assert Asked([]) == {};
  }

  lemma PassAsksAppend(dues: seq<Due>, last: Due, request: Request)
    ensures PassAsksFor(dues + [last], request) <==> PassAsksFor(dues, request) || AsksFor(last, request)
    ensures |Asked(dues + [last])| == |Asked(dues)| + |last.marketplaces|
  {
    hide AsksFor;
    assert last in dues + [last];
    assert forall d :: d in dues ==> d in dues + [last];
    PairsOfRow(|dues|, |last.marketplaces|);
    var row := set m | 0 <= m < |last.marketplaces| :: (|dues|, m);
    assert Asked(dues + [last]) == Asked(dues) + row && Asked(dues) !! row;
  }

  /** The calls of a pass: one per marketplace of each due search, with that
      search's query. */
  lemma {:induction false} PassAsks(dues: seq<Due>, request: Request)
    ensures request in PassRequests(dues) <==> PassAsksFor(dues, request)
    ensures |PassRequests(dues)| == |Asked(dues)|
  {
    hide Asked, Requests;
    if dues == [] {
      NothingAsked();
    } else {
      var n := |dues| - 1;
      PassAsks(dues[..n], request);
      SearchAsks(dues[n], |dues[n].marketplaces|, request);
      PassAsksAppend(dues[..n], dues[n], request);
      assert dues == dues[..n] + [dues[n]];
    }
  }
}
