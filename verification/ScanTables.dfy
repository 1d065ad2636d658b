/** What a scan writes: canonical listings, which search matched which listing,
    and the outbox rows that follow from it. Rows are named by what the unique
    constraints of their tables range over. */
module ScanTables {

  import opened Sql

  /** `UNIQUE(marketplace, external_listing_id)`. */
  datatype Key = Key(marketplace: string, externalId: string)

  /** `UNIQUE(saved_search_id, discovered_listing_id)`. */
  datatype Attribution = Attribution(search: nat, key: Key)

  /** `UNIQUE(user_id, discovered_listing_id)`, for rows with a user. */
  datatype Alert = Alert(user: nat, key: Key)

  /** Outbox rows without a user never collide, so they are counted. */
  datatype Tables = Tables(
    listings: set<Key>,
    attributions: set<Attribution>,
    alerts: set<Alert>,
    ownerless: multiset<Key>)
  {
    function Plus(other: Tables): Tables {
      Tables(listings + other.listings, attributions + other.attributions, alerts + other.alerts, ownerless + other.ownerless)
    }
  }

  const NOTHING := Tables({}, {}, {}, multiset{})

  /** `saved_searches`: id to owner, if any. */
  type Owners = map<nat, Option<nat>>

  ghost predicate Entitled(owners: Owners, attributions: set<Attribution>, user: nat, key: Key) {
    exists s :: s in owners && owners[s] == Some(user) && Attribution(s, key) in attributions
  }

  ghost function OwnerlessSearches(owners: Owners, attributions: set<Attribution>, key: Key): set<nat> {
    set s | s in owners && owners[s] == None && Attribution(s, key) in attributions
  }

  /** A user has a row for a listing exactly when a search of theirs matched it;
      the rows without a user number the ownerless searches that matched it. */
  ghost predicate Linked(owners: Owners, t: Tables) {
    && (forall a | a in t.attributions :: a.key in t.listings && a.search in owners)
    && (forall user, key :: Alert(user, key) in t.alerts <==> Entitled(owners, t.attributions, user, key))
    && (forall key :: t.ownerless[key] == |OwnerlessSearches(owners, t.attributions, key)|)
  }

  /** The links leave no freedom: matches decide the outbox. */
  lemma MatchesDecideTheOutbox(owners: Owners, a: Tables, b: Tables)
    requires Linked(owners, a) && Linked(owners, b)
    requires a.listings == b.listings && a.attributions == b.attributions
    ensures a == b
  {
    forall alert
      ensures alert in a.alerts <==> alert in b.alerts
    {
      assert Alert(alert.user, alert.key) == alert;
    }
    assert a.alerts == b.alerts;
    assert a.ownerless == b.ownerless;
  }
}
