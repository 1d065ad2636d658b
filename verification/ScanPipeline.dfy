/** What one scan of one marketplace does with the listings it keeps: save the
    new ones, attribute all of them to the search, and enqueue an alert for
    every attribution this scan created. */
module ScanPipeline {

  import opened Sql
  import opened ScanTables

  /** A row of `discovered_listings`, without its descriptive columns. */
  datatype Row = Row(discoveredBy: Option<nat>, firstSeen: int, lastSeen: int)

  datatype Store = Store(rows: map<Key, Row>, attributions: set<Attribution>, alerts: set<Alert>, ownerless: multiset<Key>)
  {
    function View(): Tables {
      Tables(rows.Keys, attributions, alerts, ownerless)
    }
  }

  /** `ListingDiscoveryResult`. */
  datatype Discovery = Discovery(created: seq<Key>, seen: nat, attributed: seq<Key>)

  // -------------------------------------------------------- specification

  /** The first occurrence of every key that is not known. */
  function Firsts(found: seq<Key>, known: set<Key>): seq<Key> {
    if found == [] then []
    else
      var earlier, key := Firsts(found[..|found| - 1], known), found[|found| - 1];
      if key in known || key in earlier then earlier else earlier + [key]
  }

  lemma {:induction false} FirstsAreTheUnknown(found: seq<Key>, known: set<Key>)
    ensures Distinct(Firsts(found, known))
    ensures Elements(Firsts(found, known)) == Elements(found) - known
    ensures |Firsts(found, known)| <= |found|
  {
    if found != [] {
      FirstsAreTheUnknown(found[..|found| - 1], known);
      var earlier, key := found[..|found| - 1], found[|found| - 1];
      assert found == earlier + [key];
      assert Elements(found) == Elements(earlier) + {key};
      assert key in Firsts(earlier, known) <==> key in Elements(Firsts(earlier, known));
      assert Elements(Firsts(earlier, known) + [key]) == Elements(Firsts(earlier, known)) + {key};
    }
  }

  /** The listings the search has matched. */
  function MatchedBy(attributions: set<Attribution>, search: nat): set<Key> {
    set a | a in attributions && a.search == search :: a.key
  }

  function Attributions(search: nat, keys: set<Key>): set<Attribution> {
    set k | k in keys :: Attribution(search, k)
  }

  function Alerts(user: nat, keys: set<Key>): set<Alert> {
    set k | k in keys :: Alert(user, k)
  }

  /** A known listing is only seen again; who discovered it, and when, stands. */
  function Sighted(rows: map<Key, Row>, found: set<Key>, search: Option<nat>, now: int): map<Key, Row> {
    map k | k in rows.Keys + found ::
      if k !in found then rows[k]
      else if k in rows then rows[k].(lastSeen := now)
      else Row(search, now, now)
  }

  function Discovered(db: Store, found: seq<Key>, search: Option<nat>, now: int): Store {
    db.(
      rows := Sighted(db.rows, Elements(found), search, now),
      attributions := db.attributions + if search.None? then {} else Attributions(search.value, Elements(found)))
  }

  function Report(db: Store, found: seq<Key>, search: Option<nat>): Discovery {
    FirstsAreTheUnknown(found, db.rows.Keys);
    var created := Firsts(found, db.rows.Keys);
    Discovery(
      created,
      |found| - |created|,
      if search.None? then [] else Firsts(found, MatchedBy(db.attributions, search.value)))
  }

  function Enqueued(db: Store, owner: Option<nat>, keys: seq<Key>): Store {
    if owner.None? then db.(ownerless := db.ownerless + multiset(keys))
    else db.(alerts := db.alerts + Alerts(owner.value, Elements(keys)))
  }

  function Scanned(db: Store, search: nat, owner: Option<nat>, found: seq<Key>, now: int): Store {
    Enqueued(Discovered(db, found, Some(search), now), owner, Report(db, found, Some(search)).attributed)
  }

  // ------------------------------------------------------------- database

  class Database {
    var rows: map<Key, Row>
    var attributions: set<Attribution>
    var alerts: set<Alert>
    var ownerless: multiset<Key>

    constructor ()
      ensures Contents() == Store(map[], {}, {}, multiset{})
    {
      rows, attributions, alerts, ownerless := map[], {}, {}, multiset{};
    }

    function Contents(): Store
      reads this
    {
      Store(rows, attributions, alerts, ownerless)
    }

    /** `get_or_create`, when no other transaction races it. */
    method GetOrCreate(key: Key, search: Option<nat>, now: int) returns (created: bool)
      modifies this`rows
      ensures created == (key !in old(rows))
      ensures rows == if created then old(rows)[key := Row(search, now, now)] else old(rows)
    {
      created := key !in rows;
      if created {
        rows := rows[key := Row(search, now, now)];
      }
    }

    method TouchLastSeen(key: Key, now: int)
      requires key in rows
      modifies this`rows
      ensures rows == old(rows)[key := old(rows)[key].(lastSeen := now)]
    {
      rows := rows[key := rows[key].(lastSeen := now)];
    }

    /** `record_if_missing`. */
    method RecordIfMissing(search: nat, key: Key) returns (created: bool)
      modifies this`attributions
      ensures created == (Attribution(search, key) !in old(attributions))
      ensures attributions == old(attributions) + {Attribution(search, key)}
    {
      created := Attribution(search, key) !in attributions;
      attributions := attributions + {Attribution(search, key)};
    }

    method Enqueue(key: Key, user: Option<nat>) returns (created: bool)
      modifies this`alerts, this`ownerless
      ensures created == (user.None? || Alert(user.value, key) !in old(alerts))
      ensures Contents() == Enqueued(old(Contents()), user, [key])
    {
      if user.None? {
        ownerless := ownerless + multiset{key};
        assert multiset([key]) == multiset{key};
        return true;
      }
      created := Alert(user.value, key) !in alerts;
      alerts := alerts + {Alert(user.value, key)};
      assert Alerts(user.value, Elements([key])) == {Alert(user.value, key)};
    }

    method ProcessListings(found: seq<Key>, search: Option<nat>, now: int) returns (result: Discovery)
      modifies this`rows, this`attributions
      ensures Contents() == Discovered(old(Contents()), found, search, now)
      ensures result == Report(old(Contents()), found, search)
    {
      ghost var before := Contents();
      result := Discovery([], 0, []);
      StartOfReport(before, found, search, now);
      for i := 0 to |found|
        invariant Contents() == Discovered(before, found[..i], search, now)
        invariant result == Report(before, found[..i], search)
      {
        var created := GetOrCreate(found[i], search, now);
        if created {
          result := result.(created := result.created + [found[i]]);
        } else {
          TouchLastSeen(found[i], now);
          result := result.(seen := result.seen + 1);
        }
        if search.Some? {
          var attributed := RecordIfMissing(search.value, found[i]);
          if attributed {
            result := result.(attributed := result.attributed + [found[i]]);
          }
        }
        StoreOfOneMore(before, found, i, search, now);
        ReportOfOneMore(before, found, i, search, now);
      }
      assert found[..|found|] == found;
    }

    /** The part of `_run_one_marketplace` behind the relevance filter. */
    method Scan(search: nat, owner: Option<nat>, found: seq<Key>, now: int) returns (result: Discovery)
      modifies this
      ensures Contents() == Scanned(old(Contents()), search, owner, found, now)
      ensures result == Report(old(Contents()), found, Some(search))
    {
      result := ProcessListings(found, Some(search), now);
      ghost var before := Contents();
      assert Contents() == Enqueued(before, owner, result.attributed[..0]);
      for i := 0 to |result.attributed|
        invariant Contents() == Enqueued(before, owner, result.attributed[..i])
      {
        var _ := Enqueue(result.attributed[i], owner);
        EnqueueOneMore(before, owner, result.attributed, i);
      }
      assert result.attributed[..|result.attributed|] == result.attributed;
    }
  }

  function SightedOnce(rows: map<Key, Row>, key: Key, search: Option<nat>, now: int): map<Key, Row> {
    rows[key := if key in rows then rows[key].(lastSeen := now) else Row(search, now, now)]
  }

  lemma StartOfReport(db: Store, found: seq<Key>, search: Option<nat>, now: int)
    ensures Discovered(db, found[..0], search, now) == db
    ensures Report(db, found[..0], search) == Discovery([], 0, [])
  {
    assert Sighted(db.rows, Elements<Key>([]), search, now) == db.rows;
  }

  lemma StoreOfOneMore(db: Store, found: seq<Key>, i: nat, search: Option<nat>, now: int)
    requires i < |found|
    ensures var here := Discovered(db, found[..i], search, now);
            Discovered(db, found[..i + 1], search, now) == here.(
              rows := SightedOnce(here.rows, found[i], search, now),
              attributions := here.attributions + if search.None? then {} else {Attribution(search.value, found[i])})
  {
    assert Elements(found[..i + 1]) == Elements(found[..i]) + {found[i]};
    var here := Sighted(db.rows, Elements(found[..i]), search, now);
    assert Sighted(db.rows, Elements(found[..i + 1]), search, now) == SightedOnce(here, found[i], search, now);
  }

  lemma FirstsOfOneMore(found: seq<Key>, i: nat, known: set<Key>)
    requires i < |found|
    ensures Firsts(found[..i + 1], known) ==
            if found[i] in known || found[i] in found[..i] then Firsts(found[..i], known)
            else Firsts(found[..i], known) + [found[i]]
    ensures |Firsts(found[..i], known)| <= i
  {
    assert found[..i + 1][..i] == found[..i];
    FirstsAreTheUnknown(found[..i], known);
    assert found[i] in Firsts(found[..i], known) <==> found[i] in Elements(found[..i]) - known;
  }

  lemma ReportOfOneMore(db: Store, found: seq<Key>, i: nat, search: Option<nat>, now: int)
    requires i < |found|
    ensures var was, here := Report(db, found[..i], search), Discovered(db, found[..i], search, now);
            Report(db, found[..i + 1], search) == Discovery(
              if found[i] in here.rows then was.created else was.created + [found[i]],
              if found[i] in here.rows then was.seen + 1 else was.seen,
              if search.None? || Attribution(search.value, found[i]) in here.attributions then was.attributed
              else was.attributed + [found[i]])
  {
    FirstsOfOneMore(found, i, db.rows.Keys);
    if search.Some? {
      var known := MatchedBy(db.attributions, search.value);
      FirstsOfOneMore(found, i, known);
      assert found[i] in known <==> Attribution(search.value, found[i]) in db.attributions;
    }
  }

  lemma EnqueueOneMore(db: Store, owner: Option<nat>, keys: seq<Key>, i: nat)
    requires i < |keys|
    ensures Enqueued(db, owner, keys[..i + 1]) == Enqueued(Enqueued(db, owner, keys[..i]), owner, [keys[i]])
  {
    assert keys[..i + 1] == keys[..i] + [keys[i]];
    assert Elements(keys[..i + 1]) == Elements(keys[..i]) + Elements([keys[i]]);
  }

  // ----------------------------------------------------------------- laws

  /** Every listing is either new or seen; the newly attributed ones are exactly
      those the search had not matched before, each once. */
  lemma ReportIsExact(db: Store, found: seq<Key>, search: nat)
    ensures var r := Report(db, found, Some(search));
            && |r.created| + r.seen == |found|
            && Distinct(r.created) && Elements(r.created) == Elements(found) - db.rows.Keys
            && Distinct(r.attributed)
            && Elements(r.attributed) == set k | k in found && Attribution(search, k) !in db.attributions
  {
    FirstsAreTheUnknown(found, db.rows.Keys);
    FirstsAreTheUnknown(found, MatchedBy(db.attributions, search));
    forall k: Key
      ensures k in MatchedBy(db.attributions, search) <==> Attribution(search, k) in db.attributions
    {
    }
  }

  /** The lists of a report keep the order in which the scan met the listings. */
  lemma {:induction false} FirstsKeepOrder(found: seq<Key>, known: set<Key>, i: nat, j: nat) returns (p: nat)
    requires i < j < |Firsts(found, known)|
    ensures p < |found| && found[p] == Firsts(found, known)[i] && Firsts(found, known)[j] !in found[..p + 1]
  {
    FirstsAreTheUnknown(found, known);
    var n := |found| - 1;
    var earlier := Firsts(found[..n], known);
    FirstsAreTheUnknown(found[..n], known);
    if j < |earlier| {
      p := FirstsKeepOrder(found[..n], known, i, j);
      assert found[..n][..p + 1] == found[..p + 1];
    } else {
      assert earlier[i] in Elements(earlier);
      p :| 0 <= p < n && found[..n][p] == earlier[i];
      assert found[n] !in known && found[n] !in Elements(earlier);
      assert found[n] !in Elements(found[..n]);
      assert found[..p + 1] == found[..n][..p + 1];
    }
  }

  lemma CountOfDistinct(keys: seq<Key>, key: Key)
    requires Distinct(keys)
    ensures multiset(keys)[key] == if key in keys then 1 else 0
  {
    if key in keys {
      var i :| 0 <= i < |keys| && keys[i] == key;
      assert keys == keys[..i] + [key] + keys[i + 1..];
      assert key !in keys[..i] && key !in keys[i + 1..];
    }
  }

  /** What a scan leaves of every table, row by row. */
  lemma ScanWrites(db: Store, search: nat, owner: Option<nat>, found: seq<Key>, now: int, key: Key)
    ensures var after := Scanned(db, search, owner, found, now);
            var newly := key in found && Attribution(search, key) !in db.attributions;
            && (key in after.rows <==> key in db.rows || key in found)
            && (key in found && key !in db.rows ==> after.rows[key] == Row(Some(search), now, now))
            && (forall s: nat :: Attribution(s, key) in after.attributions <==>
                  Attribution(s, key) in db.attributions || (s == search && key in found))
            && (forall user: nat :: Alert(user, key) in after.alerts <==>
                  Alert(user, key) in db.alerts || (owner == Some(user) && newly))
            && after.ownerless[key] == db.ownerless[key] + if owner == None && newly then 1 else 0
  {
    ReportIsExact(db, found, search);
    var attributed := Report(db, found, Some(search)).attributed;
    CountOfDistinct(attributed, key);
    assert key in attributed <==> key in Elements(attributed);
    assert key in found <==> key in Elements(found);
  }

  lemma MatchesOfScan(db: Store, search: nat, owner: Option<nat>, found: seq<Key>, now: int)
    ensures var after := Scanned(db, search, owner, found, now);
            && after.rows.Keys == db.rows.Keys + Elements(found)
            && after.attributions == db.attributions + Attributions(search, Elements(found))
  {
  }

  /** Scans keep the link between matches and outbox rows. */
  lemma ScanKeepsLinks(owners: Owners, db: Store, search: nat, found: seq<Key>, now: int)
    requires Linked(owners, db.View()) && search in owners
    ensures Linked(owners, Scanned(db, search, owners[search], found, now).View())
  {
    var after := Scanned(db, search, owners[search], found, now);
    MatchesOfScan(db, search, owners[search], found, now);
    forall user: nat, key
      ensures Alert(user, key) in after.alerts <==> Entitled(owners, after.attributions, user, key)
    {
      AlertsOfScan(owners, db, search, found, now, user, key);
    }
    forall key
      ensures after.ownerless[key] == |OwnerlessSearches(owners, after.attributions, key)|
    {
      OwnerlessOfScan(owners, db, search, found, now, key);
    }
  }

  lemma OwnerlessSearchesGrow(owners: Owners, attributions: set<Attribution>, search: nat, keys: set<Key>, key: Key)
    requires search in owners
    ensures var newly := owners[search].None? && key in keys && Attribution(search, key) !in attributions;
            |OwnerlessSearches(owners, attributions + Attributions(search, keys), key)| ==
            |OwnerlessSearches(owners, attributions, key)| + if newly then 1 else 0
  {
    var was := OwnerlessSearches(owners, attributions, key);
    var will := OwnerlessSearches(owners, attributions + Attributions(search, keys), key);
    if owners[search].None? && key in keys && Attribution(search, key) !in attributions {
      assert search !in was;
      assert will == was + {search};
    } else {
      assert will == was;
    }
  }

  lemma OwnerlessOfScan(owners: Owners, db: Store, search: nat, found: seq<Key>, now: int, key: Key)
    requires Linked(owners, db.View()) && search in owners
    ensures var after := Scanned(db, search, owners[search], found, now);
            after.ownerless[key] == |OwnerlessSearches(owners, after.attributions, key)|
  {
    ReportIsExact(db, found, search);
    MatchesOfScan(db, search, owners[search], found, now);
    var attributed := Report(db, found, Some(search)).attributed;
    CountOfDistinct(attributed, key);
    OwnerlessSearchesGrow(owners, db.attributions, search, Elements(found), key);
    assert key in attributed <==> key in Elements(attributed);
  }

  lemma AlertsOfScan(owners: Owners, db: Store, search: nat, found: seq<Key>, now: int, user: nat, key: Key)
    requires Linked(owners, db.View()) && search in owners
    ensures var after := Scanned(db, search, owners[search], found, now);
            Alert(user, key) in after.alerts <==> Entitled(owners, after.attributions, user, key)
  {
    ReportIsExact(db, found, search);
    var after, attributed := Scanned(db, search, owners[search], found, now), Report(db, found, Some(search)).attributed;
    assert key in attributed <==> key in Elements(attributed);
    if Entitled(owners, after.attributions, user, key) {
      var s :| s in owners && owners[s] == Some(user) && Attribution(s, key) in after.attributions;
      if Attribution(s, key) in db.attributions {
        assert Entitled(owners, db.attributions, user, key);
      } else {
        assert s == search && key in found;
      }
    }
    if Alert(user, key) in db.alerts {
      var s :| s in owners && owners[s] == Some(user) && Attribution(s, key) in db.attributions;
      assert Attribution(s, key) in after.attributions;
    } else if Alert(user, key) in after.alerts {
      assert owners[search] == Some(user) && Attribution(search, key) in after.attributions;
    }
  }

  /** A listing that somebody else's search discovered long ago still alerts the
      owner of a search that matches it now. */
  lemma EveryMatchAlertsItsOwner(owners: Owners, db: Store, search: nat, found: seq<Key>, now: int, key: Key)
    requires Linked(owners, db.View()) && search in owners && owners[search].Some? && key in found
    ensures Alert(owners[search].value, key) in Scanned(db, search, owners[search], found, now).alerts
  {
    AlertsOfScan(owners, db, search, found, now, owners[search].value, key);
  }

  lemma NothingNew(db: Store, search: nat, found: seq<Key>)
    requires Elements(found) <= db.rows.Keys && Attributions(search, Elements(found)) <= db.attributions
    ensures Report(db, found, Some(search)) == Discovery([], |found|, [])
  {
    ReportIsExact(db, found, search);
    forall k | k in found
      ensures Attribution(search, k) in db.attributions
    {
      assert Attribution(search, k) in Attributions(search, Elements(found));
    }
    DistinctCount(Report(db, found, Some(search)).created);
    DistinctCount(Report(db, found, Some(search)).attributed);
  }

  /** Scanning the same listings again creates nothing and alerts nobody. */
  lemma RescanIsQuiet(db: Store, search: nat, owner: Option<nat>, found: seq<Key>, now: int, later: int)
    ensures var once := Scanned(db, search, owner, found, now);
            && Report(once, found, Some(search)) == Discovery([], |found|, [])
            && Scanned(once, search, owner, found, later).View() == once.View()
  {
    var once := Scanned(db, search, owner, found, now);
    MatchesOfScan(db, search, owner, found, now);
    NothingNew(once, search, found);
    MatchesOfScan(once, search, owner, found, later);
    assert Alerts(if owner.None? then 0 else owner.value, {}) == {};
  }

  lemma TwoScans(owners: Owners, db: Store, s: nat, found: seq<Key>, now: int, t: nat, others: seq<Key>, later: int)
    returns (after: Store)
    requires Linked(owners, db.View()) && s in owners && t in owners
    ensures after == Scanned(Scanned(db, s, owners[s], found, now), t, owners[t], others, later)
    ensures Linked(owners, after.View())
    ensures after.rows.Keys == db.rows.Keys + Elements(found) + Elements(others)
    ensures after.attributions == db.attributions + Attributions(s, Elements(found)) + Attributions(t, Elements(others))
  {
    var first := Scanned(db, s, owners[s], found, now);
    ScanKeepsLinks(owners, db, s, found, now);
    ScanKeepsLinks(owners, first, t, others, later);
    MatchesOfScan(db, s, owners[s], found, now);
    MatchesOfScan(first, t, owners[t], others, later);
    after := Scanned(first, t, owners[t], others, later);
  }

  /** Two scans leave the same tables in either order, whoever owns them. */
  lemma ScansCommute(owners: Owners, db: Store, s: nat, found: seq<Key>, now: int, t: nat, others: seq<Key>, later: int)
    requires Linked(owners, db.View()) && s in owners && t in owners
    ensures var oneWay := Scanned(Scanned(db, s, owners[s], found, now), t, owners[t], others, later);
            var other := Scanned(Scanned(db, t, owners[t], others, later), s, owners[s], found, now);
            oneWay.View() == other.View()
  {
    var oneWay := TwoScans(owners, db, s, found, now, t, others, later);
    var other := TwoScans(owners, db, t, others, later, s, found, now);
    MatchesDecideTheOutbox(owners, oneWay.View(), other.View());
  }

  /** Who discovered a listing, and when, is never rewritten. */
  lemma FirstDiscoveryStands(db: Store, search: nat, owner: Option<nat>, found: seq<Key>, now: int, key: Key)
    requires key in db.rows
    ensures var after := Scanned(db, search, owner, found, now);
            && key in after.rows
            && after.rows[key].discoveredBy == db.rows[key].discoveredBy
            && after.rows[key].firstSeen == db.rows[key].firstSeen
            && after.rows[key].lastSeen == if key in found then now else db.rows[key].lastSeen
  {
  }
}
