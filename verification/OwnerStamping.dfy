/** The backfill that stamps an owner on outbox rows enqueued before the owner
    was stored on the row. One transaction: it commits whole or not at all. */
module OwnerStamping {

  import opened Sql
  import D = Drain
  import R = OutboxRepository

  type Rows = map<nat, R.Record>

  datatype Classification = Resolved(owner: nat) | NoDiscoveringSearch | MissingSavedSearch | UnownedSavedSearch

  /** The legacy ownership chain, telling which hop failed. */
  function ResolveLegacyOwner(d: D.Directory, listing: nat): Classification {
    if listing !in d.discoveredBy || d.discoveredBy[listing].None? then NoDiscoveringSearch
    else
      var search := d.discoveredBy[listing].value;
      if search !in d.searchOwner then MissingSavedSearch
      else if d.searchOwner[search].None? then UnownedSavedSearch
      else Resolved(d.searchOwner[search].value)
  }

  /** `UNIQUE(user_id, discovered_listing_id)`; null users never collide. */
  ghost predicate Unique(rows: Rows) {
    forall a, b | a in rows && b in rows && a != b ::
      rows[a].userId.Some? && rows[a].userId == rows[b].userId ==> rows[a].discoveredListingId != rows[b].discoveredListingId
  }

  predicate Stampable(d: D.Directory, row: R.Record) {
    row.userId.None? && ResolveLegacyOwner(d, row.discoveredListingId).Resolved?
  }

  function Stamp(d: D.Directory, row: R.Record): R.Record {
    if Stampable(d, row) then row.(userId := Some(ResolveLegacyOwner(d, row.discoveredListingId).owner)) else row
  }

  ghost function StampAll(d: D.Directory, rows: Rows): Rows {
    map id | id in rows :: Stamp(d, rows[id])
  }

  ghost function StampableRows(d: D.Directory, rows: Rows): set<nat> {
    set id | id in rows && Stampable(d, rows[id])
  }

  // ------------------------------------------------------------ the laws

  /** Stamping writes the owner of the search that first discovered the listing,
      on rows that name nobody, and touches no other column. */
  lemma StampWritesTheOwner(d: D.Directory, row: R.Record, user: nat)
    ensures Stamp(d, row).(userId := row.userId) == row
    ensures Stamp(d, row).userId == Some(user) <==>
            || row.userId == Some(user)
            || (row.userId == None && exists search ::
                  && row.discoveredListingId in d.discoveredBy && d.discoveredBy[row.discoveredListingId] == Some(search)
                  && search in d.searchOwner && d.searchOwner[search] == Some(user))
  {
    if Stampable(d, row) {
      var search := d.discoveredBy[row.discoveredListingId].value;
      assert d.searchOwner[search] == Some(ResolveLegacyOwner(d, row.discoveredListingId).owner);
    }
  }

  /** Stamping changes who is written on a row, never where its alerts go. */
  lemma StampKeepsRoutes(d: D.Directory, row: R.Record)
    ensures D.OwnerOf(d, Stamp(d, row)) == D.OwnerOf(d, row)
    ensures D.RouteOf(d, Stamp(d, row)) == D.RouteOf(d, row)
    ensures D.PushRouteOf(d, Stamp(d, row)) == D.PushRouteOf(d, row)
  {
  }

  /** The directory once saved search `search` is deleted: its row goes, and
      the listings it discovered forget it. */
  function DeleteSearch(d: D.Directory, search: nat): D.Directory {
    d.(searchOwner := d.searchOwner - {search},
       discoveredBy := map l | l in d.discoveredBy :: if d.discoveredBy[l] == Some(search) then None else d.discoveredBy[l])
  }

  /** What stamping is for: exactly the rows whose owner came from `search`
      would lose it with the search, and no stamped row does. */
  lemma StampedRowsSurviveTheirSearch(d: D.Directory, row: R.Record, search: nat)
    ensures D.RouteOf(DeleteSearch(d, search), Stamp(d, row)) == D.RouteOf(d, row)
    ensures D.PushRouteOf(DeleteSearch(d, search), Stamp(d, row)) == D.PushRouteOf(d, row)
    ensures D.OwnerOf(DeleteSearch(d, search), row) != D.OwnerOf(d, row)
            <==> Stampable(d, row) && D.SearchOf(d, row) == Some(search)
  {
  }

  lemma StampTwiceIsStampOnce(d: D.Directory, rows: Rows)
    ensures StampableRows(d, StampAll(d, rows)) == {}
    ensures StampAll(d, StampAll(d, rows)) == StampAll(d, rows)
  {
  }

  /** Two rows of one listing would end up with the same owner. */
  ghost predicate Collides(d: D.Directory, rows: Rows) {
    exists a, b :: a in rows && b in rows && a != b && CollidingPair(d, rows[a], rows[b])
  }

  ghost predicate CollidingPair(d: D.Directory, a: R.Record, b: R.Record) {
    && Stampable(d, a) && a.discoveredListingId == b.discoveredListingId
    && (b.userId.None? || b.userId == Some(ResolveLegacyOwner(d, a.discoveredListingId).owner))
  }

  /** The commit succeeds exactly when no listing has a row to stamp next to an
      ownerless row, or next to a row the same owner already has. */
  lemma CommitSucceedsIff(d: D.Directory, rows: Rows)
    requires Unique(rows)
    ensures Unique(StampAll(d, rows)) <==> !Collides(d, rows)
  {
    var stamped := StampAll(d, rows);
    if Collides(d, rows) {
      var a, b :| a in rows && b in rows && a != b && CollidingPair(d, rows[a], rows[b]);
      assert stamped[a].userId == stamped[b].userId;
    } else {
      forall a, b | a in stamped && b in stamped && a != b
        ensures stamped[a].userId.Some? && stamped[a].userId == stamped[b].userId ==>
                  stamped[a].discoveredListingId != stamped[b].discoveredListingId
      {
        assert !CollidingPair(d, rows[a], rows[b]) && !CollidingPair(d, rows[b], rows[a]);
      }
    }
  }

  /** Such tables exist: an old ownerless row beside the owner's own row. */
  lemma CollisionHappens(d: D.Directory, legacy: R.Record, own: R.Record)
    requires d.discoveredBy == map[5 := Some(3)] && d.searchOwner == map[3 := Some(7)]
    requires legacy.discoveredListingId == own.discoveredListingId == 5 && legacy.userId == None && own.userId == Some(7)
    ensures Unique(map[0 := legacy, 1 := own]) && !Unique(StampAll(d, map[0 := legacy, 1 := own]))
  {
    var rows: Rows := map[0 := legacy, 1 := own];
    assert CollidingPair(d, rows[0], rows[1]);
    CommitSucceedsIff(d, rows);
  }

  // ------------------------------------------------------------- the run

  ghost function Ownerless(rows: Rows): set<nat> {
    set id | id in rows && rows[id].userId == None
  }

  /** Ownerless rows, by the hop at which the chain to an owner breaks. */
  ghost function NoSearch(d: D.Directory, rows: Rows): set<nat> {
    set id | id in rows && rows[id].userId == None &&
      (rows[id].discoveredListingId !in d.discoveredBy || d.discoveredBy[rows[id].discoveredListingId] == None)
  }

  ghost function SearchGone(d: D.Directory, rows: Rows): set<nat> {
    set id | id in rows && rows[id].userId == None && rows[id].discoveredListingId in d.discoveredBy &&
      var search := d.discoveredBy[rows[id].discoveredListingId]; search != None && search.value !in d.searchOwner
  }

  ghost function SearchUnowned(d: D.Directory, rows: Rows): set<nat> {
    set id | id in rows && rows[id].userId == None && rows[id].discoveredListingId in d.discoveredBy &&
      var search := d.discoveredBy[rows[id].discoveredListingId];
      search != None && search.value in d.searchOwner && d.searchOwner[search.value] == None
  }

  ghost predicate HopsCounted(d: D.Directory, rows: Rows, noSearch: nat, missing: nat, unowned: nat) {
    noSearch == |NoSearch(d, rows)| && missing == |SearchGone(d, rows)| && unowned == |SearchUnowned(d, rows)|
  }

  lemma FourParts<T>(whole: set<T>, a: set<T>, b: set<T>, c: set<T>, e: set<T>)
    requires whole == a + b + c + e && a !! b !! c !! e
    ensures |whole| == |a| + |b| + |c| + |e|
  {
  }

  lemma HopOf(d: D.Directory, rows: Rows, id: nat)
    ensures id in Ownerless(rows) <==>
              id in StampableRows(d, rows) || id in NoSearch(d, rows) || id in SearchGone(d, rows) || id in SearchUnowned(d, rows)
    ensures id in StampableRows(d, rows) ==> id !in NoSearch(d, rows) && id !in SearchGone(d, rows) && id !in SearchUnowned(d, rows)
    ensures id in NoSearch(d, rows) ==> id !in SearchGone(d, rows) && id !in SearchUnowned(d, rows)
    ensures id in SearchGone(d, rows) ==> id !in SearchUnowned(d, rows)
  {
  }

  lemma OwnerlessSplit(d: D.Directory, rows: Rows)
    ensures |Ownerless(rows)| == |StampableRows(d, rows)| + |NoSearch(d, rows)| + |SearchGone(d, rows)| + |SearchUnowned(d, rows)|
  {
    hide *;
    forall id: nat
      ensures id in Ownerless(rows) <==>
                id in StampableRows(d, rows) || id in NoSearch(d, rows) || id in SearchGone(d, rows) || id in SearchUnowned(d, rows)
      ensures id in StampableRows(d, rows) ==> id !in NoSearch(d, rows) && id !in SearchGone(d, rows) && id !in SearchUnowned(d, rows)
      ensures id in NoSearch(d, rows) ==> id !in SearchGone(d, rows) && id !in SearchUnowned(d, rows)
      ensures id in SearchGone(d, rows) ==> id !in SearchUnowned(d, rows)
    {
      HopOf(d, rows, id);
    }
    FourParts(Ownerless(rows), StampableRows(d, rows), NoSearch(d, rows), SearchGone(d, rows), SearchUnowned(d, rows));
  }

  datatype Counts = Counts(nulls: nat, safe: nat, noSearch: nat, missing: nat, unowned: nat)

  function CountRow(c: Counts, d: D.Directory, row: R.Record): Counts {
    if row.userId.Some? then c
    else
      match ResolveLegacyOwner(d, row.discoveredListingId)
      case NoDiscoveringSearch => c.(nulls := c.nulls + 1, noSearch := c.noSearch + 1)
      case MissingSavedSearch => c.(nulls := c.nulls + 1, missing := c.missing + 1)
      case UnownedSavedSearch => c.(nulls := c.nulls + 1, unowned := c.unowned + 1)
      case Resolved(_) => c.(nulls := c.nulls + 1, safe := c.safe + 1)
  }

  ghost predicate Balanced(c: Counts, d: D.Directory, rows: Rows, seen: seq<nat>) {
    && c.nulls == c.safe + c.noSearch + c.missing + c.unowned <= |seen|
    && c.safe == |StampedSoFar(d, rows, seen)|
    && c.noSearch == |OfKind(d, rows, seen, NoDiscoveringSearch)|
    && c.missing == |OfKind(d, rows, seen, MissingSavedSearch)|
    && c.unowned == |OfKind(d, rows, seen, UnownedSavedSearch)|
  }

  lemma CountOneMore(c: Counts, d: D.Directory, rows: Rows, seen: seq<nat>, id: nat)
    requires Balanced(c, d, rows, seen) && id in rows && id !in seen
    ensures Balanced(CountRow(c, d, rows[id]), d, rows, seen + [id])
  {
    hide ResolveLegacyOwner;
    StampedOneMore(d, rows, seen, id);
    KindOneMore(d, rows, seen, id, NoDiscoveringSearch);
    KindOneMore(d, rows, seen, id, MissingSavedSearch);
    KindOneMore(d, rows, seen, id, UnownedSavedSearch);
  }

  /** The rows seen are stamped, if they are to be, and the others are not. */
  ghost predicate StampedPart(staged: Rows, d: D.Directory, rows: Rows, seen: seq<nat>, apply: bool) {
    && staged.Keys == rows.Keys
    && forall id | id in rows :: staged[id] == if apply && id in seen then Stamp(d, rows[id]) else rows[id]
  }

  lemma StampOneMore(staged: Rows, d: D.Directory, rows: Rows, seen: seq<nat>, id: nat, apply: bool)
    requires StampedPart(staged, d, rows, seen, apply) && id in rows
    ensures StampedPart(if apply then staged[id := Stamp(d, rows[id])] else staged, d, rows, seen + [id], apply)
  {
    hide Stamp;
  }

  lemma NothingSeen(d: D.Directory, rows: Rows, apply: bool)
    ensures Balanced(Counts(0, 0, 0, 0, 0), d, rows, []) && StampedPart(rows, d, rows, [], apply)
  {
  }

  lemma KindsAreHops(d: D.Directory, rows: Rows, all: seq<nat>)
    requires Elements(all) == rows.Keys
    ensures OfKind(d, rows, all, NoDiscoveringSearch) == NoSearch(d, rows)
    ensures OfKind(d, rows, all, MissingSavedSearch) == SearchGone(d, rows)
    ensures OfKind(d, rows, all, UnownedSavedSearch) == SearchUnowned(d, rows)
  {
    assert forall id | id in rows :: id in Elements(all);
  }

  lemma AllSeen(staged: Rows, c: Counts, d: D.Directory, rows: Rows, all: seq<nat>, apply: bool)
    requires Elements(all) == rows.Keys && Distinct(all)
    requires StampedPart(staged, d, rows, all, apply) && Balanced(c, d, rows, all)
    ensures staged == if apply then StampAll(d, rows) else rows
    ensures c.nulls == |Ownerless(rows)| == c.safe + c.noSearch + c.missing + c.unowned <= |all| == |rows|
    ensures c.safe == |StampableRows(d, rows)| && HopsCounted(d, rows, c.noSearch, c.missing, c.unowned)
  {
    hide Stamp, Stampable, NoSearch, SearchGone, SearchUnowned, OfKind;
    assert forall id | id in rows :: id in Elements(all);
    assert StampedSoFar(d, rows, all) == StampableRows(d, rows);
    DistinctCount(all);
    OwnerlessSplit(d, rows);
    KindsAreHops(d, rows, all);
  }

  /** Walks the rows, stamping a copy of the table and counting. */
  method StampRows(rows: Rows, d: D.Directory, all: seq<nat>, apply: bool) returns (staged: Rows, c: Counts)
    requires Elements(all) == rows.Keys && Distinct(all)
    ensures staged == if apply then StampAll(d, rows) else rows
    ensures c.nulls == |Ownerless(rows)| == c.safe + c.noSearch + c.missing + c.unowned <= |all| == |rows|
    ensures c.safe == |StampableRows(d, rows)| && HopsCounted(d, rows, c.noSearch, c.missing, c.unowned)
  {
    hide Stamp, StampedPart, Balanced, CountRow, StampAll, StampableRows, HopsCounted;
    staged, c := rows, Counts(0, 0, 0, 0, 0);
    NothingSeen(d, rows, apply);
    for k := 0 to |all|
      invariant StampedPart(staged, d, rows, all[..k], apply)
      invariant Balanced(c, d, rows, all[..k])
    {
      var id := all[k];
      assert id in Elements(all) && id !in all[..k];
      CountOneMore(c, d, rows, all[..k], id);
      StampOneMore(staged, d, rows, all[..k], id, apply);
      assert all[..k] + [id] == all[..k + 1];
      c := CountRow(c, d, rows[id]);
      if apply {
        staged := staged[id := Stamp(d, rows[id])];
      }
    }
    assert all[..|all|] == all;
    AllSeen(staged, c, d, rows, all, apply);
  }

  datatype Report = Report(
    total: nat, alreadyStamped: nat, nullExamined: nat, safelyResolvable: nat,
    noDiscoveringSearch: nat, missingSavedSearch: nat, unownedSavedSearch: nat,
    wouldUpdate: nat, updated: nat, applied: bool)

  /** The report adds up, and promises before what it delivers after. */
  ghost predicate Accounts(r: Report, d: D.Directory, rows: Rows, apply: bool) {
    var n := |StampableRows(d, rows)|;
    && r.total == |rows| == r.alreadyStamped + r.nullExamined
    && r.nullExamined == n + r.noDiscoveringSearch + r.missingSavedSearch + r.unownedSavedSearch
    && HopsCounted(d, rows, r.noDiscoveringSearch, r.missingSavedSearch, r.unownedSavedSearch)
    && r.alreadyStamped == |rows| - |Ownerless(rows)|
    && r.safelyResolvable == r.wouldUpdate == n
    && r.updated == (if apply then n else 0)
    && (r.applied <==> apply && n > 0)
  }

  lemma NothingToStamp(d: D.Directory, rows: Rows)
    requires |StampableRows(d, rows)| == 0
    ensures StampAll(d, rows) == rows
  {
    assert forall id | id in rows :: id !in StampableRows(d, rows);
  }

  /** `None` stands for the integrity error of a failed commit. */
  method RunNotificationUserBackfill(repo: R.Repository, d: D.Directory, all: seq<nat>, apply: bool) returns (report: Option<Report>)
    requires Elements(all) == repo.rows.Keys && Distinct(all) && Unique(repo.rows)
    modifies repo
    ensures Unique(repo.rows)
    ensures report == None <==> apply && Collides(d, old(repo.rows))
    ensures repo.rows == if apply && report.Some? then StampAll(d, old(repo.rows)) else old(repo.rows)
    ensures report.Some? ==> Accounts(report.value, d, old(repo.rows), apply)
  {
    hide Collides, HopsCounted, Stampable, Stamp;
    var staged, c := StampRows(repo.rows, d, all, apply);
    CommitSucceedsIff(d, repo.rows);
    if apply && c.safe == 0 {
      NothingToStamp(d, repo.rows);
    }
    if apply && c.safe > 0 {
      if DetectsDuplicate(staged) {
        return None;
      }
      repo.rows := staged;
    }
    report := Some(Report(
      |all|, |all| - c.nulls, c.nulls, c.safe, c.noSearch, c.missing, c.unowned,
      c.safe, if apply then c.safe else 0, apply && c.safe > 0));
  }

  /** The constraint check of the database. */
  predicate DetectsDuplicate(rows: Rows) {
    exists a, b :: a in rows && b in rows && a != b && rows[a].userId.Some? && rows[a].userId == rows[b].userId
                   && rows[a].discoveredListingId == rows[b].discoveredListingId
  }

  ghost function StampedSoFar(d: D.Directory, rows: Rows, ids: seq<nat>): set<nat> {
    set id | id in ids && id in rows && Stampable(d, rows[id])
  }

  ghost function OfKind(d: D.Directory, rows: Rows, ids: seq<nat>, kind: Classification): set<nat> {
    set id | id in ids && id in rows && rows[id].userId == None && ResolveLegacyOwner(d, rows[id].discoveredListingId) == kind
  }

  lemma KindOneMore(d: D.Directory, rows: Rows, ids: seq<nat>, id: nat, kind: Classification)
    requires id in rows && id !in ids
    ensures |OfKind(d, rows, ids + [id], kind)| == |OfKind(d, rows, ids, kind)| +
            if rows[id].userId == None && ResolveLegacyOwner(d, rows[id].discoveredListingId) == kind then 1 else 0
  {
    hide ResolveLegacyOwner;
    if rows[id].userId == None && ResolveLegacyOwner(d, rows[id].discoveredListingId) == kind {
      assert OfKind(d, rows, ids + [id], kind) == OfKind(d, rows, ids, kind) + {id};
    } else {
      assert OfKind(d, rows, ids + [id], kind) == OfKind(d, rows, ids, kind);
    }
  }

  lemma StampedOneMore(d: D.Directory, rows: Rows, ids: seq<nat>, id: nat)
    requires id in rows && id !in ids
    ensures |StampedSoFar(d, rows, ids + [id])| == |StampedSoFar(d, rows, ids)| + if Stampable(d, rows[id]) then 1 else 0
  {
    if Stampable(d, rows[id]) {
      assert StampedSoFar(d, rows, ids + [id]) == StampedSoFar(d, rows, ids) + {id};
    } else {
      assert StampedSoFar(d, rows, ids + [id]) == StampedSoFar(d, rows, ids);
    }
  }
}
