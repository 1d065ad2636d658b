/** The pages of listings a user owns: the listings that one of the user's own
    searches has matched, filtered, ordered and cut into pages. */
module OwnedPagination {

  import opened Sql
  import opened OrderBy

  datatype Listing = Listing(marketplace: string, price: Option<real>, discoveredAt: int)

  datatype Attribution = Attribution(search: nat, listing: nat, discoveredAt: int)

  /** `owners` is `saved_searches`: id to user. */
  datatype Database = Database(listings: map<nat, Listing>, attributions: map<nat, Attribution>, owners: map<nat, Option<nat>>)

  datatype Sort = Newest | Oldest | PriceAsc | PriceDesc

  /** `text` stands for the filters on currency, condition and location. */
  datatype Filter = Filter(
    marketplace: Option<string>,
    marketplaces: set<string>,
    minPrice: Option<real>,
    maxPrice: Option<real>,
    discoveredAfter: Option<int>,
    discoveredBefore: Option<int>,
    newSince: Option<int>,
    text: nat -> Truth)

  // -------------------------------------------------------------- queries

  function NotBelow(price: Option<real>, bound: real): Truth {
    if price.None? then Unknown else Of(price.value >= bound)
  }

  function NotAbove(price: Option<real>, bound: real): Truth {
    if price.None? then Unknown else Of(price.value <= bound)
  }

  /** `_apply_filters`: a row stays when every clause is true. */
  predicate Passes(f: Filter, id: nat, l: Listing) {
    && (f.marketplace.Some? ==> l.marketplace == f.marketplace.value)
    && (f.marketplaces != {} ==> l.marketplace in f.marketplaces)
    && (f.minPrice.Some? ==> NotBelow(l.price, f.minPrice.value) == Yes)
    && (f.maxPrice.Some? ==> NotAbove(l.price, f.maxPrice.value) == Yes)
    && (f.discoveredAfter.Some? ==> l.discoveredAt >= f.discoveredAfter.value)
    && (f.discoveredBefore.Some? ==> l.discoveredAt <= f.discoveredBefore.value)
    && (f.newSince.Some? ==> l.discoveredAt >= f.newSince.value)
    && f.text(id) == Yes
  }

  /** Attribution `a` is to a search of the user's. */
  predicate Owns(db: Database, user: nat, a: nat, listing: nat) {
    && a in db.attributions && db.attributions[a].listing == listing
    && db.attributions[a].search in db.owners && db.owners[db.attributions[a].search] == Some(user)
  }

  /** `_owned_exists_clause`. */
  predicate OwnedExists(db: Database, user: nat, search: Option<nat>, listing: nat) {
    && (exists a | a in db.attributions :: Owns(db, user, a, listing))
    && (search.Some? ==> exists a | a in db.attributions :: Owns(db, user, a, listing) && db.attributions[a].search == search.value)
  }

  function Matching(db: Database, user: nat, search: Option<nat>, f: Filter): set<nat> {
    set id | id in db.listings && OwnedExists(db, user, search, id) && Passes(f, id, db.listings[id])
  }

  function CountOwned(db: Database, user: nat, search: Option<nat>, f: Filter): nat {
    |Matching(db, user, search, f)|
  }

  // ------------------------------------------------------------- ordering

  predicate Newer(a: Listing, i: nat, b: Listing, j: nat) {
    a.discoveredAt > b.discoveredAt || (a.discoveredAt == b.discoveredAt && i > j)
  }

  /** `NULLS LAST`, in both directions. */
  predicate PriceBefore(a: Option<real>, b: Option<real>, ascending: bool) {
    a.Some? && (b.None? || if ascending then a.value < b.value else a.value > b.value)
  }

  predicate Comes(sort: Sort, a: Listing, i: nat, b: Listing, j: nat) {
    match sort
    case Newest => Newer(a, i, b, j)
    case Oldest => a.discoveredAt < b.discoveredAt || (a.discoveredAt == b.discoveredAt && i < j)
    case PriceAsc => PriceBefore(a.price, b.price, true) || (a.price == b.price && Newer(a, i, b, j))
    case PriceDesc => PriceBefore(a.price, b.price, false) || (a.price == b.price && Newer(a, i, b, j))
  }

  /** `_sort_clause`. */
  function SortClause(db: Database, sort: Sort): Before {
    (i: nat, j: nat) => i in db.listings && j in db.listings && Comes(sort, db.listings[i], i, db.listings[j], j)
  }

  lemma ComesIsStrict(sort: Sort, a: Listing, i: nat, b: Listing, j: nat, c: Listing, k: nat)
    ensures !Comes(sort, a, i, a, i)
    ensures i != j ==> Comes(sort, a, i, b, j) || Comes(sort, b, j, a, i)
    ensures Comes(sort, a, i, b, j) && Comes(sort, b, j, c, k) ==> Comes(sort, a, i, c, k)
  {
    assert a.price.Some? && b.price.Some? ==> a.price.value < b.price.value || a.price == b.price || a.price.value > b.price.value;
  }

  /** Every sort mode is a strict total order: no two rows tie. */
  lemma SortIsStrictTotal(db: Database, sort: Sort, pool: set<nat>)
    requires pool <= db.listings.Keys
    ensures StrictTotal(SortClause(db, sort), pool)
  {
    forall i, j, k | i in pool && j in pool && k in pool
      ensures !SortClause(db, sort)(i, i)
      ensures i != j ==> SortClause(db, sort)(i, j) || SortClause(db, sort)(j, i)
      ensures SortClause(db, sort)(i, j) && SortClause(db, sort)(j, k) ==> SortClause(db, sort)(i, k)
    {
      ComesIsStrict(sort, db.listings[i], i, db.listings[j], j, db.listings[k], k);
    }
  }

  // ---------------------------------------------------------------- pages

  /** The whole result, in order. */
  ghost function Result(db: Database, user: nat, search: Option<nat>, f: Filter, sort: Sort): (r: seq<nat>)
    ensures Elements(r) == Matching(db, user, search, f) && |r| == CountOwned(db, user, search, f)
    ensures Sorted(SortClause(db, sort), r)
  {
    SortIsStrictTotal(db, sort, Matching(db, user, search, f));
    Ordered(SortClause(db, sort), Matching(db, user, search, f))
  }

  function Least(a: nat, b: nat): nat {
    if a < b then a else b
  }

  /** `LIMIT limit OFFSET offset`. */
  function Slice(r: seq<nat>, limit: nat, offset: nat): seq<nat> {
    r[Least(offset, |r|)..Least(offset + limit, |r|)]
  }

  /** `list_recent_owned`. */
  ghost function ListRecentOwned(db: Database, user: nat, search: Option<nat>, f: Filter, sort: Sort, limit: nat, offset: nat): seq<nat> {
    Slice(Result(db, user, search, f, sort), limit, offset)
  }

  /** The first `n` pages, one after another. */
  ghost function Pages(db: Database, user: nat, search: Option<nat>, f: Filter, sort: Sort, limit: nat, n: nat): seq<nat> {
    if n == 0 then []
    else
      Pages(db, user, search, f, sort, limit, n - 1) + ListRecentOwned(db, user, search, f, sort, limit, (n - 1) * limit)
  }

  lemma NextSlice(r: seq<nat>, limit: nat, offset: nat, next: nat)
    requires next == offset + limit
    ensures r[..Least(offset, |r|)] + Slice(r, limit, offset) == r[..Least(next, |r|)]
  {
  }

  lemma NextPage(n: nat, limit: nat)
    requires n > 0
    ensures n * limit == (n - 1) * limit + limit
  {
  }

  lemma {:induction false} PagesArePrefixes(db: Database, user: nat, search: Option<nat>, f: Filter, sort: Sort, limit: nat, n: nat)
    ensures var r := Result(db, user, search, f, sort);
            Pages(db, user, search, f, sort, limit, n) == r[..Least(n * limit, |r|)]
  {
    hide Result, Slice;
    if n > 0 {
      PagesArePrefixes(db, user, search, f, sort, limit, n - 1);
      NextPage(n, limit);
      NextSlice(Result(db, user, search, f, sort), limit, (n - 1) * limit, n * limit);
    }
  }

  /** All pages together give every matching owned listing exactly once, in
      order, and as many as `count_owned` announces. */
  lemma PagesAreExact(db: Database, user: nat, search: Option<nat>, f: Filter, sort: Sort, limit: nat, n: nat)
    requires n * limit >= CountOwned(db, user, search, f)
    ensures var all := Pages(db, user, search, f, sort, limit, n);
            && Distinct(all) && Elements(all) == Matching(db, user, search, f)
            && |all| == CountOwned(db, user, search, f)
            && Sorted(SortClause(db, sort), all)
  {
    var r := Result(db, user, search, f, sort);
    PagesArePrefixes(db, user, search, f, sort, limit, n);
    assert r[..|r|] == r;
    SortIsStrictTotal(db, sort, Elements(r));
    SortedIsDistinct(SortClause(db, sort), r);
  }

  /** Rows without a price come after all rows with one, in both directions. */
  lemma NullPricesLast(db: Database, user: nat, search: Option<nat>, f: Filter, sort: Sort, i: nat, j: nat)
    requires sort.PriceAsc? || sort.PriceDesc?
    requires var r := Result(db, user, search, f, sort); i < j < |r| && r[i] in db.listings && r[j] in db.listings
    ensures var r := Result(db, user, search, f, sort); db.listings[r[i]].price.None? ==> db.listings[r[j]].price.None?
  {
    var r := Result(db, user, search, f, sort);
    assert SortClause(db, sort)(r[i], r[j]);
  }

  /** The four orders, on the columns of any two rows of a result. */
  lemma ResultIsInOrder(db: Database, user: nat, search: Option<nat>, f: Filter, sort: Sort, p: nat, q: nat)
    requires p < q < |Result(db, user, search, f, sort)|
    ensures var i, j := Result(db, user, search, f, sort)[p], Result(db, user, search, f, sort)[q];
            && i in db.listings && j in db.listings
            && var a, b := db.listings[i], db.listings[j];
               && (sort == Newest ==> a.discoveredAt >= b.discoveredAt && (a.discoveredAt == b.discoveredAt ==> i > j))
               && (sort == Oldest ==> a.discoveredAt <= b.discoveredAt && (a.discoveredAt == b.discoveredAt ==> i < j))
               && (sort == PriceAsc && b.price != None ==> a.price != None && a.price.value <= b.price.value)
               && (sort == PriceDesc && b.price != None ==> a.price != None && a.price.value >= b.price.value)
               && (sort in {PriceAsc, PriceDesc} && a.price == b.price ==>
                     a.discoveredAt >= b.discoveredAt && (a.discoveredAt == b.discoveredAt ==> i > j))
  {
    var r := Result(db, user, search, f, sort);
    assert SortClause(db, sort)(r[p], r[q]);
  }

  /** What a result contains: listings that a search of the user's has matched,
      the named one if there is one, within all bounds given, themselves included. */
  lemma MatchingIff(db: Database, user: nat, search: Option<nat>, f: Filter, id: nat)
    ensures id in Matching(db, user, search, f) <==>
            && id in db.listings
            && (exists a | a in db.attributions ::
                  && db.attributions[a].listing == id
                  && db.attributions[a].search in db.owners && db.owners[db.attributions[a].search] == Some(user)
                  && (search == None || search == Some(db.attributions[a].search)))
            && var l := db.listings[id];
               && (f.marketplace == None || f.marketplace == Some(l.marketplace))
               && (f.marketplaces == {} || l.marketplace in f.marketplaces)
               && (f.minPrice == None || (l.price != None && f.minPrice.value <= l.price.value))
               && (f.maxPrice == None || (l.price != None && l.price.value <= f.maxPrice.value))
               && (f.discoveredAfter == None || f.discoveredAfter.value <= l.discoveredAt)
               && (f.discoveredBefore == None || l.discoveredAt <= f.discoveredBefore.value)
               && (f.newSince == None || f.newSince.value <= l.discoveredAt)
               && f.text(id) == Yes
  {
  }

  /** Page by page: at most `limit` rows, row `k` being row `offset + k` of the result. */
  lemma PageIs(db: Database, user: nat, search: Option<nat>, f: Filter, sort: Sort, limit: nat, offset: nat)
    ensures var r, page := Result(db, user, search, f, sort), ListRecentOwned(db, user, search, f, sort, limit, offset);
            && |page| == (if |r| <= offset then 0 else if |r| - offset <= limit then |r| - offset else limit)
            && forall k | 0 <= k < |page| :: page[k] == r[offset + k]
  {
    hide Result;
  }

  /** A price bound never shows a listing without a price. */
  lemma PriceBoundsHideUnpriced(db: Database, user: nat, search: Option<nat>, f: Filter, id: nat)
    requires id in Matching(db, user, search, f) && (f.minPrice.Some? || f.maxPrice.Some?)
    ensures db.listings[id].price.Some?
  {
  }

  /** Naming a search of somebody else's shows nothing. */
  lemma ForeignSearchShowsNothing(db: Database, user: nat, search: nat, f: Filter)
    requires search !in db.owners || db.owners[search] != Some(user)
    ensures Matching(db, user, Some(search), f) == {}
  {
  }

  // ------------------------------------------------- earliest attribution

  function OwnAttributions(db: Database, user: nat, listings: set<nat>): set<nat> {
    set a | a in db.attributions && db.attributions[a].listing in listings && Owns(db, user, a, db.attributions[a].listing)
  }

  predicate Earlier(db: Database, a: nat, b: nat) {
    && a in db.attributions && b in db.attributions
    && var x, y := db.attributions[a], db.attributions[b];
       x.discoveredAt < y.discoveredAt || (x.discoveredAt == y.discoveredAt && a < b)
  }

  /** `ORDER BY discovered_listing_id, discovered_at, id`. */
  function ByListing(db: Database): Before {
    (a: nat, b: nat) =>
      a in db.attributions && b in db.attributions
      && (|| db.attributions[a].listing < db.attributions[b].listing
          || (db.attributions[a].listing == db.attributions[b].listing && Earlier(db, a, b)))
  }

  lemma ByListingIsStrict(db: Database, pool: set<nat>)
    requires pool <= db.attributions.Keys
    ensures StrictTotal(ByListing(db), pool)
  {
  }

  /** `a` is the first attribution of the listing to a search of the user's. */
  ghost predicate IsEarliest(db: Database, user: nat, listing: nat, a: nat) {
    Owns(db, user, a, listing) && forall b | b in db.attributions && Owns(db, user, b, listing) && b != a :: Earlier(db, a, b)
  }

  ghost predicate Filled(db: Database, rows: seq<nat>, n: nat, earliest: map<nat, nat>)
    requires n <= |rows|
  {
    && (forall l | l in earliest :: exists i | 0 <= i < n :: FirstFor(db, rows, l, i) && earliest[l] == db.attributions[rows[i]].search)
    && (forall i | 0 <= i < n :: rows[i] in db.attributions && db.attributions[rows[i]].listing in earliest)
  }

  /** Row `i` is the first of its listing. */
  ghost predicate FirstFor(db: Database, rows: seq<nat>, l: nat, i: nat) {
    && i < |rows| && rows[i] in db.attributions && db.attributions[rows[i]].listing == l
    && forall j | 0 <= j < i :: rows[j] in db.attributions && db.attributions[rows[j]].listing != l
  }

  lemma FirstIsEarliest(db: Database, user: nat, listings: set<nat>, rows: seq<nat>, l: nat, i: nat)
    requires Elements(rows) == OwnAttributions(db, user, listings) && Sorted(ByListing(db), rows)
    requires l in listings && FirstFor(db, rows, l, i)
    ensures IsEarliest(db, user, l, rows[i])
  {
    assert rows[i] in Elements(rows);
    forall b | b in db.attributions && Owns(db, user, b, l) && b != rows[i]
      ensures Earlier(db, rows[i], b)
    {
      assert b in Elements(rows);
      var j :| 0 <= j < |rows| && rows[j] == b;
      assert ByListing(db)(rows[i], rows[j]);
    }
  }

  lemma EarliestIsFilled(db: Database, user: nat, listings: set<nat>, rows: seq<nat>, earliest: map<nat, nat>, l: nat)
    requires Elements(rows) == OwnAttributions(db, user, listings) && Sorted(ByListing(db), rows)
    requires Filled(db, rows, |rows|, earliest) && l in earliest
    ensures l in listings && exists a :: IsEarliest(db, user, l, a) && earliest[l] == db.attributions[a].search
  {
    var i :| 0 <= i < |rows| && FirstFor(db, rows, l, i) && earliest[l] == db.attributions[rows[i]].search;
    assert rows[i] in Elements(rows);
    FirstIsEarliest(db, user, listings, rows, l, i);
  }

  lemma OwnedIsFilled(db: Database, user: nat, listings: set<nat>, rows: seq<nat>, earliest: map<nat, nat>, l: nat, a: nat)
    requires Elements(rows) == OwnAttributions(db, user, listings)
    requires Filled(db, rows, |rows|, earliest) && l in listings && a in db.attributions && Owns(db, user, a, l)
    ensures l in earliest
  {
    assert a in Elements(rows);
  }

  lemma FilledOneMore(db: Database, rows: seq<nat>, i: nat, earliest: map<nat, nat>)
    requires i < |rows| && rows[i] in db.attributions && Filled(db, rows, i, earliest)
    ensures var a := db.attributions[rows[i]];
            Filled(db, rows, i + 1, if a.listing in earliest then earliest else earliest[a.listing := a.search])
  {
    var a := db.attributions[rows[i]];
    if a.listing !in earliest {
      assert FirstFor(db, rows, a.listing, i);
    }
  }

  method FillEarliest(db: Database, rows: seq<nat>) returns (earliest: map<nat, nat>)
    requires forall i | 0 <= i < |rows| :: rows[i] in db.attributions
    ensures Filled(db, rows, |rows|, earliest)
  {
    earliest := map[];
    for i := 0 to |rows|
      invariant Filled(db, rows, i, earliest)
    {
      FilledOneMore(db, rows, i, earliest);
      var a := db.attributions[rows[i]];
      if a.listing !in earliest {
        earliest := earliest[a.listing := a.search];
      }
    }
  }

  /** `get_earliest_attribution_search_ids`. */
  method EarliestSearchIds(db: Database, user: nat, listings: set<nat>) returns (earliest: map<nat, nat>)
    ensures forall l :: l in earliest <==> l in listings && exists a | a in db.attributions :: Owns(db, user, a, l)
    ensures forall l | l in earliest :: exists a :: IsEarliest(db, user, l, a) && earliest[l] == db.attributions[a].search
  {
    var pool := OwnAttributions(db, user, listings);
    ByListingIsStrict(db, pool);
    var rows := Select(ByListing(db), pool, |pool|);
    assert rows == Ordered(ByListing(db), pool);
    forall i | 0 <= i < |rows|
      ensures rows[i] in db.attributions
    {
      assert rows[i] in Elements(rows);
    }
    earliest := FillEarliest(db, rows);
    forall l | l in earliest
      ensures l in listings && exists a :: IsEarliest(db, user, l, a) && earliest[l] == db.attributions[a].search
    {
      EarliestIsFilled(db, user, listings, rows, earliest, l);
    }
    forall l, a | l in listings && a in db.attributions && Owns(db, user, a, l)
      ensures l in earliest
    {
      OwnedIsFilled(db, user, listings, rows, earliest, l, a);
    }
  }

  method FetchPage(db: Database, user: nat, search: Option<nat>, f: Filter, sort: Sort, limit: nat, offset: nat) returns (ids: seq<nat>)
    ensures ids == ListRecentOwned(db, user, search, f, sort, limit, offset)
    ensures forall id | id in ids :: id in Matching(db, user, search, f)
  {
    var pool := Matching(db, user, search, f);
    SortIsStrictTotal(db, sort, pool);
    var all := Select(SortClause(db, sort), pool, |pool|);
    assert all == Result(db, user, search, f, sort);
    ids := Slice(all, limit, offset);
    assert forall id | id in ids :: id in Elements(all);
  }

  /** The search of the user's that matched the listing first, on the columns. */
  ghost predicate ReportedUnder(db: Database, user: nat, listing: nat, search: nat) {
    exists a | a in db.attributions && db.attributions[a].listing == listing && db.attributions[a].search == search ::
      forall b | && b in db.attributions && db.attributions[b].listing == listing
                 && db.attributions[b].search in db.owners && db.owners[db.attributions[b].search] == Some(user) ::
        || db.attributions[a].discoveredAt < db.attributions[b].discoveredAt
        || (db.attributions[a].discoveredAt == db.attributions[b].discoveredAt && a <= b)
  }

  lemma EarliestIsReported(db: Database, user: nat, listing: nat, a: nat)
    requires IsEarliest(db, user, listing, a)
    ensures ReportedUnder(db, user, listing, db.attributions[a].search)
  {
  }

  lemma OwnedOfMatching(db: Database, user: nat, search: Option<nat>, f: Filter, id: nat)
    requires id in Matching(db, user, search, f)
    ensures exists a | a in db.attributions :: Owns(db, user, a, id)
  {
  }

  /** A page as it is shown: every row with the search it is reported under. */
  method ShownPage(db: Database, user: nat, search: Option<nat>, f: Filter, sort: Sort, limit: nat, offset: nat)
    returns (ids: seq<nat>, reported: map<nat, nat>)
    ensures ids == ListRecentOwned(db, user, search, f, sort, limit, offset)
    ensures forall id | id in ids ::
              id in reported && reported[id] in db.owners && db.owners[reported[id]] == Some(user)
              && exists a :: IsEarliest(db, user, id, a) && reported[id] == db.attributions[a].search
    ensures forall id | id in ids :: id in reported && ReportedUnder(db, user, id, reported[id])
  {
    hide Matching, ReportedUnder, ListRecentOwned;
    ids := FetchPage(db, user, search, f, sort, limit, offset);
    reported := EarliestSearchIds(db, user, Elements(ids));
    forall id | id in ids
      ensures id in reported && ReportedUnder(db, user, id, reported[id])
      ensures exists a :: IsEarliest(db, user, id, a) && reported[id] == db.attributions[a].search
      ensures reported[id] in db.owners && db.owners[reported[id]] == Some(user)
    {
      OwnedOfMatching(db, user, search, f, id);
      assert id in Elements(ids);
      var a :| IsEarliest(db, user, id, a) && reported[id] == db.attributions[a].search;
      EarliestIsReported(db, user, id, a);
    }
  }
}
