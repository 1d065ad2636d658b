/** The drain: claim a batch, resolve each row's destination, deliver with no
    transaction open, complete each row on its own. */
module Drain {

  import opened Sql
  import C = OutboxChannel
  import T = OutboxTable
  import R = OutboxRepository

  datatype Device = Device(userId: nat, token: string, channelId: Option<string>)

  /** The tables routing reads. `searchOwner` and `chatId` hold a key per row of
      `saved_searches` and `notification_preferences`. */
  datatype Directory = Directory(
    searchOwner: map<nat, Option<nat>>,
    discoveredBy: map<nat, Option<nat>>,
    chatId: map<nat, Option<string>>,
    devices: seq<Device>)

  /** The owner of a notification: the stamped user, else the owner of the
      search that first discovered the listing. */
  function ResolveOwner(d: Directory, userId: Option<nat>, searchId: Option<nat>): Option<nat> {
    if userId.Some? then userId
    else if searchId.Some? && searchId.value in d.searchOwner then d.searchOwner[searchId.value]
    else None
  }

  datatype Resolved = NoDestination(reason: C.ErrorText) | Destination(chat: string)

  function ResolveDestination(d: Directory, userId: Option<nat>, searchId: Option<nat>): Resolved {
    var owner := ResolveOwner(d, userId, searchId);
    if owner.None? then NoDestination(C.OwnerUnresolved)
    else if owner.value in d.chatId && d.chatId[owner.value].Some? && d.chatId[owner.value].value != "" then
      Destination(d.chatId[owner.value].value)
    else NoDestination(C.AwaitingDestination)
  }

  const DEFAULT_NOTIFICATION_CHANNEL_ID := "listing-alerts-default-v1"

  datatype PushDestination = PushDestination(token: string, channelId: string)

  datatype ResolvedPush = NoDevice(reason: C.ErrorText) | Devices(destinations: seq<PushDestination>)

  function DevicesOf(devices: seq<Device>, user: nat): seq<PushDestination> {
    if devices == [] then []
    else
      var device, rest := devices[|devices| - 1], DevicesOf(devices[..|devices| - 1], user);
      if device.userId != user then rest
      else
        var channelId := if device.channelId.Some? && device.channelId.value != "" then device.channelId.value
                         else DEFAULT_NOTIFICATION_CHANNEL_ID;
        rest + [PushDestination(device.token, channelId)]
  }

  function ResolvePushDestinations(d: Directory, userId: Option<nat>, searchId: Option<nat>): ResolvedPush {
    var owner := ResolveOwner(d, userId, searchId);
    if owner.None? then NoDevice(C.OwnerUnresolved)
    else
      var destinations := DevicesOf(d.devices, owner.value);
      if destinations == [] then NoDevice(C.NoDeviceRegistered) else Devices(destinations)
  }

  /** Whether a provider call returned or raised, and with which text. */
  datatype Reply = Taken | Raised(error: C.ErrorText)

  function Deliver(resolved: Resolved, reply: Reply): C.Outcome {
    if resolved.NoDestination? then C.Refused(resolved.reason)
    else if reply.Taken? then C.Accepted
    else C.Refused(reply.error)
  }

  const ALL_DEVICES_FAILED := C.OtherError("Push delivery failed for every registered device")

  ghost predicate AnyTaken(replies: seq<Reply>) {
    exists j :: 0 <= j < |replies| && replies[j].Taken?
  }

  function Targets(resolved: ResolvedPush): seq<PushDestination> {
    if resolved.NoDevice? then [] else resolved.destinations
  }

  /** One device is enough; when all fail, the last one's error is reported. */
  ghost predicate PushDelivered(resolved: ResolvedPush, replies: seq<Reply>, outcome: C.Outcome) {
    match resolved
    case NoDevice(reason) => outcome == C.Refused(reason)
    case Devices(_) =>
      if AnyTaken(replies) then outcome == C.Accepted
      else
        replies != [] && replies[|replies| - 1].Raised? &&
        var last := replies[|replies| - 1].error;
        outcome == C.Refused(if last == C.OtherError("") then ALL_DEVICES_FAILED else last)
  }

  /** Fans out to every device of the owner, whatever the others answered. */
  method DeliverPush(resolved: ResolvedPush, replies: seq<Reply>) returns (outcome: C.Outcome, sends: seq<PushDestination>)
    requires resolved.Devices? ==> |replies| == |resolved.destinations| > 0
    ensures PushDelivered(resolved, replies, outcome)
    ensures sends == Targets(resolved)
  {
    sends := [];
    if resolved.NoDevice? {
      return C.Refused(resolved.reason), sends;
    }
    var anySuccess := false;
    var lastError: Option<C.ErrorText> := None;
    for j := 0 to |resolved.destinations|
      invariant sends == resolved.destinations[..j]
      invariant anySuccess <==> AnyTaken(replies[..j])
      invariant !anySuccess && j > 0 ==> lastError == Some(replies[j - 1].error)
    {
      assert replies[..j + 1] == replies[..j] + [replies[j]];
      assert AnyTaken(replies[..j]) ==> AnyTaken(replies[..j + 1]);
      sends := sends + [resolved.destinations[j]];
      match replies[j]
      case Taken =>
        anySuccess := true;
        assert replies[..j + 1][j].Taken?;
      case Raised(error) =>
        lastError := Some(error);
    }
    assert replies[..|replies|] == replies;
    if anySuccess {
      outcome := C.Accepted;
    } else {
      outcome := C.Refused(if lastError == Some(C.OtherError("")) then ALL_DEVICES_FAILED else lastError.value);
    }
  }

  datatype DrainResult = DrainResult(claimed: nat, sent: nat, failed: nat, awaiting: nat, unresolved: nat)

  /** Counts one outcome, as both drain loops do. */
  function Tally(result: DrainResult, kind: C.Kind, outcome: C.Outcome): DrainResult {
    match outcome
    case Refused(error) =>
      if error == C.WaitingError(kind) then result.(awaiting := result.awaiting + 1)
      else if error == C.OwnerUnresolved then result.(unresolved := result.unresolved + 1)
      else result.(failed := result.failed + 1)
    case _ => result.(sent := result.sent + 1)
  }

  function TallyAll(claimed: nat, kind: C.Kind, outcomes: seq<C.Outcome>): DrainResult {
    if outcomes == [] then DrainResult(claimed, 0, 0, 0, 0)
    else Tally(TallyAll(claimed, kind, outcomes[..|outcomes| - 1]), kind, outcomes[|outcomes| - 1])
  }

  ghost function Sent(outcomes: seq<C.Outcome>): set<int> {
    set k | 0 <= k < |outcomes| && !outcomes[k].Refused?
  }

  lemma SentAppend(outcomes: seq<C.Outcome>, last: C.Outcome)
    ensures |Sent(outcomes + [last])| == |Sent(outcomes)| + if last.Refused? then 0 else 1
  {
    if last.Refused? {
      assert Sent(outcomes + [last]) == Sent(outcomes);
    } else {
      assert Sent(outcomes + [last]) == Sent(outcomes) + {|outcomes|};
    }
  }

  ghost function Positions(outcomes: seq<C.Outcome>, outcome: C.Outcome): set<int> {
    set k | 0 <= k < |outcomes| && outcomes[k] == outcome
  }

  lemma PositionsAppend(outcomes: seq<C.Outcome>, last: C.Outcome, outcome: C.Outcome)
    ensures |Positions(outcomes + [last], outcome)| == |Positions(outcomes, outcome)| + if last == outcome then 1 else 0
  {
    if last == outcome {
      assert Positions(outcomes + [last], outcome) == Positions(outcomes, outcome) + {|outcomes|};
    } else {
      assert Positions(outcomes + [last], outcome) == Positions(outcomes, outcome);
    }
  }

  /** Every claimed row is counted exactly once, and in its own place. */
  lemma {:induction false} TallyIsComplete(claimed: nat, kind: C.Kind, outcomes: seq<C.Outcome>)
    ensures var r, waiting := TallyAll(claimed, kind, outcomes), if kind == C.Telegram then C.AwaitingDestination else C.NoDeviceRegistered;
            && r.claimed == claimed
            && r.sent + r.failed + r.awaiting + r.unresolved == |outcomes|
            && r.sent == |Sent(outcomes)|
            && r.awaiting == |Positions(outcomes, C.Refused(waiting))|
            && r.unresolved == |Positions(outcomes, C.Refused(C.OwnerUnresolved))|
  {
    if outcomes != [] {
      var before, last := outcomes[..|outcomes| - 1], outcomes[|outcomes| - 1];
      TallyIsComplete(claimed, kind, before);
      assert outcomes == before + [last];
      SentAppend(before, last);
      PositionsAppend(before, last, C.Refused(C.WaitingError(kind)));
      PositionsAppend(before, last, C.Refused(C.OwnerUnresolved));
    }
  }

  // ------------------------------------------------------- the drain pass

  ghost predicate Holds(s: T.State, kind: C.Kind, id: nat, i: nat) {
    && id in s.rows && !T.Locked(s, id)
    && i < |s.rows[id].Channel(kind).attempts|
    && s.rows[id].Channel(kind).attempts[i].fate == C.Held
    && s.rows[id].Channel(kind).attempts[i].outcome == C.Unsent
  }

  lemma OthersStillHeld(s: T.State, kind: C.Kind, id: nat, event: C.Event)
    requires T.Enabled(s, T.Act(kind, id, event), true)
    ensures forall other, j: nat | other != id && Holds(s, kind, other, j) ::
              Holds(T.Apply(s, T.Act(kind, id, event)), kind, other, j)
  {
    var t := T.Apply(s, T.Act(kind, id, event));
    forall other, j: nat | other != id && Holds(s, kind, other, j)
      ensures Holds(t, kind, other, j)
    {
      assert t.open == s.open && t.rows[other] == s.rows[other];
    }
  }

  lemma DeliverStep(s: T.State, kind: C.Kind, id: nat, i: nat, outcome: C.Outcome, rows: map<nat, R.Record>)
    requires Holds(s, kind, id, i) && outcome != C.Unsent && R.Represents(rows, s)
    ensures var e := T.Act(kind, id, C.Deliver(i, outcome));
            && T.Enabled(s, e, true)
            && R.Represents(rows, T.Apply(s, e))
            && (forall now: int, max: int :: T.Enabled(T.Apply(s, e), T.Act(kind, id, C.Complete(i, now, max)), true))
            && T.Apply(s, e).rows[id].Channel(kind).attempts[i].outcome == outcome
  {
    assert T.Apply(s, T.Act(kind, id, C.Deliver(i, outcome))).open == s.open;
  }

  /** Delivering and completing a held claim are two more steps of the run. */
  lemma DeliverAndComplete(
    s: T.State, steps: seq<T.Step>, kind: C.Kind, id: nat, i: nat, outcome: C.Outcome, now: int, maxAttempts: int,
    before: map<nat, R.Record>, after: map<nat, R.Record>) returns (longer: seq<T.Step>)
    requires T.Legal(s, steps, true) && R.Represents(before, T.Replay(s, steps))
    requires Holds(T.Replay(s, steps), kind, id, i) && outcome != C.Unsent
    requires R.CompletedRow(before, after, kind, id, now, outcome == C.Accepted,
                            if outcome.Refused? then Some(outcome.error) else None, maxAttempts)
    ensures T.Legal(s, longer, true) && R.Represents(after, T.Replay(s, longer))
    ensures forall other, j: nat | other != id && Holds(T.Replay(s, steps), kind, other, j) ::
              Holds(T.Replay(s, longer), kind, other, j)
  {
    var t := T.Replay(s, steps);
    var deliver, complete := T.Act(kind, id, C.Deliver(i, outcome)), T.Act(kind, id, C.Complete(i, now, maxAttempts));
    DeliverStep(t, kind, id, i, outcome, before);
    OthersStillHeld(t, kind, id, deliver.event);
    OthersStillHeld(T.Apply(t, deliver), kind, id, complete.event);
    T.ReplayAppend(s, steps, deliver, true);
    T.ReplayAppend(s, steps + [deliver], complete, true);
    longer := steps + [deliver] + [complete];
    R.CompletionRefinesStep(before, after, T.Apply(t, deliver), kind, id, i, now, outcome == C.Accepted,
                            if outcome.Refused? then Some(outcome.error) else None, maxAttempts);
  }

  /** After its claim commits, a worker holds the claim of each row it took. */
  lemma ClaimIsHeld(s: T.State, w: nat, b: T.Batch, limit: nat) returns (steps: seq<T.Step>)
    requires w !in s.open && T.Enabled(s, T.Begin(w, b, limit), true)
    ensures T.Legal(s, steps, true)
    ensures T.Replay(s, steps) == T.Apply(T.Apply(s, T.Begin(w, b, limit)), T.Commit(b.kind, w))
    ensures forall id | id in b.ids :: HoldsNewest(s, T.Replay(s, steps), b.kind, id)
  {
    steps := [] + [T.Begin(w, b, limit)];
    T.ReplayAppend(s, [], T.Begin(w, b, limit), true);
    T.ReplayAppend(s, steps, T.Commit(b.kind, w), true);
    steps := steps + [T.Commit(b.kind, w)];
    var t := T.Replay(s, steps);
    assert t.open == s.open;
    forall id | id in b.ids
      ensures HoldsNewest(s, t, b.kind, id)
    {
      var p :| 0 <= p < |b.ids| && b.ids[p] == id;
      assert !T.Locked(s, id);
    }
  }

  /** What a worker has made of its batch after the first `k` rows. */
  ghost predicate Drained(
    before: map<nat, R.Record>, after: map<nat, R.Record>, kind: C.Kind, claimed: seq<nat>, k: nat,
    now: int, outcomes: seq<C.Outcome>, clock: nat -> int, maxAttempts: int)
    requires k <= |claimed| && k <= |outcomes|
  {
    && after.Keys == before.Keys
    && (forall id | id in before && id !in claimed :: after[id] == before[id])
    && (forall j | 0 <= j < |claimed| :: claimed[j] in before && after[claimed[j]].DiffersOnlyOn(before[claimed[j]], kind))
    && (forall j | 0 <= j < k ::
          after[claimed[j]].Columns(kind) ==
          C.Completed(kind, C.Claimed(before[claimed[j]].Columns(kind), now), clock(j), outcomes[j] == C.Accepted,
                      if outcomes[j].Refused? then Some(outcomes[j].error) else None, maxAttempts))
    && (forall j | k <= j < |claimed| :: after[claimed[j]].Columns(kind) == C.Claimed(before[claimed[j]].Columns(kind), now))
  }

  /** The pass so far is a run, and its remaining claims are still held. */
  ghost predicate OnTrack(
    s: T.State, steps: seq<T.Step>, rows: map<nat, R.Record>, kind: C.Kind, claimed: seq<nat>, k: nat)
  {
    && T.Legal(s, steps, true) && R.Represents(rows, T.Replay(s, steps))
    && (forall j | k <= j < |claimed| :: HoldsNewest(s, T.Replay(s, steps), kind, claimed[j]))
  }

  ghost predicate HoldsNewest(s: T.State, t: T.State, kind: C.Kind, id: nat) {
    id in s.rows && Holds(t, kind, id, |s.rows[id].Channel(kind).attempts|)
  }

  lemma StayOnTrack(
    s: T.State, steps: seq<T.Step>, kind: C.Kind, claimed: seq<nat>, k: nat, outcome: C.Outcome, now: int, maxAttempts: int,
    before: map<nat, R.Record>, after: map<nat, R.Record>) returns (longer: seq<T.Step>)
    requires k < |claimed| && Distinct(claimed) && OnTrack(s, steps, before, kind, claimed, k) && outcome != C.Unsent
    requires R.CompletedRow(before, after, kind, claimed[k], now, outcome == C.Accepted,
                            if outcome.Refused? then Some(outcome.error) else None, maxAttempts)
    ensures OnTrack(s, longer, after, kind, claimed, k + 1)
  {
    var id := claimed[k];
    assert HoldsNewest(s, T.Replay(s, steps), kind, id);
    longer := DeliverAndComplete(s, steps, kind, id, |s.rows[id].Channel(kind).attempts|, outcome, now, maxAttempts, before, after);
    forall j | k + 1 <= j < |claimed|
      ensures HoldsNewest(s, T.Replay(s, longer), kind, claimed[j])
    {
      assert HoldsNewest(s, T.Replay(s, steps), kind, claimed[j]) && claimed[j] != id;
    }
  }

  lemma DrainedOneMore(
    before: map<nat, R.Record>, during: map<nat, R.Record>, after: map<nat, R.Record>, kind: C.Kind, claimed: seq<nat>, k: nat,
    now: int, outcomes: seq<C.Outcome>, outcome: C.Outcome, clock: nat -> int, maxAttempts: int)
    requires k < |claimed| && k == |outcomes| && Distinct(claimed)
    requires Drained(before, during, kind, claimed, k, now, outcomes, clock, maxAttempts)
    requires R.CompletedRow(during, after, kind, claimed[k], clock(k), outcome == C.Accepted,
                            if outcome.Refused? then Some(outcome.error) else None, maxAttempts)
    ensures Drained(before, after, kind, claimed, k + 1, now, outcomes + [outcome], clock, maxAttempts)
  {
    forall j | 0 <= j < |claimed| && j != k
      ensures after[claimed[j]] == during[claimed[j]]
    {
      assert claimed[j] != claimed[k];
    }
  }

  /** The search that first discovered the row's listing. */
  function SearchOf(d: Directory, row: R.Record): Option<nat> {
    if row.discoveredListingId in d.discoveredBy then d.discoveredBy[row.discoveredListingId] else None
  }

  function OwnerOf(d: Directory, row: R.Record): Option<nat> {
    ResolveOwner(d, row.userId, SearchOf(d, row))
  }

  /** Where the row's alert goes: decided by the row and the directory alone. */
  function RouteOf(d: Directory, row: R.Record): Resolved {
    ResolveDestination(d, row.userId, SearchOf(d, row))
  }

  function PushRouteOf(d: Directory, row: R.Record): ResolvedPush {
    ResolvePushDestinations(d, row.userId, SearchOf(d, row))
  }

  /** What a pass reads: who discovered each listing, when it claims; the rest of
      the directory anew for every row. `At(k)` is what the k-th row gets to see. */
  datatype Reads = Reads(discoveredBy: map<nat, Option<nat>>, directory: nat -> Directory) {
    function At(k: nat): Directory {
      directory(k).(discoveredBy := discoveredBy)
    }
  }

  datatype Send = Send(id: nat, chat: string)

  /** The sends of a batch: one per routable row, to that row's own chat. */
  function SendLog(d: Reads, rows: map<nat, R.Record>, claimed: seq<nat>): seq<Send>
    requires forall id | id in claimed :: id in rows
  {
    if claimed == [] then []
    else
      var k := |claimed| - 1;
      var route := RouteOf(d.At(k), rows[claimed[k]]);
      SendLog(d, rows, claimed[..k]) + if route.Destination? then [Send(claimed[k], route.chat)] else []
  }

  ghost predicate ReachesOwner(d: Directory, rows: map<nat, R.Record>, send: Send) {
    && send.id in rows && OwnerOf(d, rows[send.id]).Some?
    && OwnerOf(d, rows[send.id]).value in d.chatId
    && d.chatId[OwnerOf(d, rows[send.id]).value] == Some(send.chat)
  }

  /** It is the send of the row at position `k`, to its owner as of its turn. */
  ghost predicate OwnerGets(d: Reads, rows: map<nat, R.Record>, claimed: seq<nat>, send: Send, k: nat) {
    k < |claimed| && claimed[k] == send.id && ReachesOwner(d.At(k), rows, send)
  }

  ghost predicate SomeOwnerGets(d: Reads, rows: map<nat, R.Record>, claimed: seq<nat>, send: Send) {
    exists k: nat :: OwnerGets(d, rows, claimed, send, k)
  }

  ghost predicate OnlyToOwners(d: Reads, rows: map<nat, R.Record>, claimed: seq<nat>, sends: seq<Send>) {
    && (forall n | 0 <= n < |sends| :: SomeOwnerGets(d, rows, claimed, sends[n]))
    && (forall m, n | 0 <= m < n < |sends| :: sends[m].id != sends[n].id)
  }

  /** A row's alert goes to the chat of the row's own owner or nowhere, at most
      once a pass, whatever becomes of the directory in between. */
  lemma {:induction false} SendsReachOnlyTheOwner(d: Reads, rows: map<nat, R.Record>, claimed: seq<nat>)
    requires (forall id | id in claimed :: id in rows) && Distinct(claimed)
    ensures OnlyToOwners(d, rows, claimed, SendLog(d, rows, claimed))
  {
    hide RouteOf, ReachesOwner, OwnerOf;
    if claimed != [] {
      var k := |claimed| - 1;
      SendsReachOnlyTheOwner(d, rows, claimed[..k]);
      var prior, route := SendLog(d, rows, claimed[..k]), RouteOf(d.At(k), rows[claimed[k]]);
      var log := SendLog(d, rows, claimed);
      assert log == prior + if route.Destination? then [Send(claimed[k], route.chat)] else [];
      forall n | 0 <= n < |log|
        ensures SomeOwnerGets(d, rows, claimed, log[n]) && (n < |prior| ==> log[n].id != claimed[k])
      {
        if n < |prior| {
          assert log[n] == prior[n] && SomeOwnerGets(d, rows, claimed[..k], prior[n]);
          var j: nat :| OwnerGets(d, rows, claimed[..k], prior[n], j);
          assert OwnerGets(d, rows, claimed, log[n], j);
        } else {
          RouteReachesOwner(d.At(k), rows, claimed[k]);
          assert OwnerGets(d, rows, claimed, log[n], k);
        }
      }
      assert forall n | 0 <= n < |prior| :: log[n] == prior[n];
    }
  }

  lemma RouteReachesOwner(d: Directory, rows: map<nat, R.Record>, id: nat)
    requires id in rows && RouteOf(d, rows[id]).Destination?
    ensures ReachesOwner(d, rows, Send(id, RouteOf(d, rows[id]).chat))
  {
  }

  /** What the worker has to show for the first `k` rows of its batch. */
  ghost predicate Reported(
    d: Reads, rows: map<nat, R.Record>, claimed: seq<nat>, k: nat, replies: nat -> Reply,
    outcomes: seq<C.Outcome>, sends: seq<Send>, result: DrainResult)
    requires k <= |claimed| && forall id | id in claimed :: id in rows
  {
    && |outcomes| == k
    && (forall j | 0 <= j < k :: outcomes[j] == Deliver(RouteOf(d.At(j), rows[claimed[j]]), replies(j)))
    && sends == SendLog(d, rows, claimed[..k])
    && result == TallyAll(|claimed|, C.Telegram, outcomes)
  }

  lemma ReportedOneMore(
    d: Reads, rows: map<nat, R.Record>, claimed: seq<nat>, k: nat, replies: nat -> Reply,
    outcomes: seq<C.Outcome>, sends: seq<Send>, result: DrainResult)
    requires k < |claimed| && forall id | id in claimed :: id in rows
    requires Reported(d, rows, claimed, k, replies, outcomes, sends, result)
    ensures var route := RouteOf(d.At(k), rows[claimed[k]]);
            var outcome := Deliver(route, replies(k));
            Reported(d, rows, claimed, k + 1, replies, outcomes + [outcome],
                     if route.Destination? then sends + [Send(claimed[k], route.chat)] else sends,
                     Tally(result, C.Telegram, outcome))
  {
    var outcome := Deliver(RouteOf(d.At(k), rows[claimed[k]]), replies(k));
    assert (outcomes + [outcome])[..k] == outcomes;
    assert claimed[..k + 1][..k] == claimed[..k];
  }

  /** Resolves, delivers and completes the k-th row of a batch. */
  method FinishRow(
    repo: R.Repository, d: Reads, claimed: seq<nat>, k: nat, now: int, maxAttempts: int,
    replies: nat -> Reply, clock: nat -> int, ghost first: map<nat, R.Record>, ghost done: seq<C.Outcome>)
    returns (resolved: Resolved, outcome: C.Outcome)
    requires k < |claimed| && |done| == k && Distinct(claimed)
    requires Drained(first, repo.rows, C.Telegram, claimed, k, now, done, clock, maxAttempts)
    modifies repo
    ensures resolved == RouteOf(d.At(k), first[claimed[k]]) && outcome == Deliver(resolved, replies(k))
    ensures R.CompletedRow(old(repo.rows), repo.rows, C.Telegram, claimed[k], clock(k), outcome == C.Accepted,
                           if outcome.Refused? then Some(outcome.error) else None, maxAttempts)
    ensures Drained(first, repo.rows, C.Telegram, claimed, k + 1, now, done + [outcome], clock, maxAttempts)
  {
    resolved := RouteOf(d.At(k), repo.rows[claimed[k]]);
    outcome := Deliver(resolved, replies(k));
    ghost var before := repo.rows;
    repo.Complete(claimed[k], clock(k), outcome == C.Accepted, if outcome.Refused? then Some(outcome.error) else None, maxAttempts);
    DrainedOneMore(first, before, repo.rows, C.Telegram, claimed, k, now, done, outcome, clock, maxAttempts);
  }

  lemma StartsOnTrack(s: T.State, w: nat, b: T.Batch, limit: nat, rows: map<nat, R.Record>) returns (steps: seq<T.Step>)
    requires w !in s.open && R.ClaimStepsTaken(rows, s, w, b, limit)
    ensures OnTrack(s, steps, rows, b.kind, b.ids, 0)
  {
    steps := ClaimIsHeld(s, w, b, limit);
  }

  lemma StartsDrained(
    before: map<nat, R.Record>, after: map<nat, R.Record>, kind: C.Kind, claimed: seq<nat>, now: int, clock: nat -> int, maxAttempts: int)
    requires R.ClaimedRows(before, after, kind, Elements(claimed), now) && forall id | id in claimed :: id in before
    ensures Drained(before, after, kind, claimed, 0, now, [], clock, maxAttempts)
  {
    assert forall j | 0 <= j < |claimed| :: claimed[j] in Elements(claimed);
  }

  lemma StartsReported(d: Reads, rows: map<nat, R.Record>, claimed: seq<nat>, replies: nat -> Reply)
    requires forall id | id in claimed :: id in rows
    ensures Reported(d, rows, claimed, 0, replies, [], [], DrainResult(|claimed|, 0, 0, 0, 0))
  {
  }

  lemma NothingDrained(
    s: T.State, d: Reads, rows: map<nat, R.Record>, kind: C.Kind, now: int, clock: nat -> int, maxAttempts: int, replies: nat -> Reply)
    requires R.Represents(rows, s)
    ensures Drained(rows, rows, kind, [], 0, now, [], clock, maxAttempts)
    ensures Reported(d, rows, [], 0, replies, [], [], DrainResult(0, 0, 0, 0, 0))
    ensures OnTrack(s, [], rows, kind, [], 0)
  {
  }

  /** One drain pass. `replies(k)` is what the provider would answer for the
      k-th row of the batch, `clock(k)` the time of its completion. The pass is
      a run of the step system, so the laws of its runs hold of it. */
  method DrainPendingNotifications(
    repo: R.Repository, d: Reads, enabled: bool, now: int, batchSize: nat, lease: int, retry: int, maxAttempts: int,
    locked: set<nat>, replies: nat -> Reply, clock: nat -> int, ghost s: T.State, ghost worker: nat)
    returns (result: DrainResult, claimed: seq<nat>, outcomes: seq<C.Outcome>, sends: seq<Send>, ghost steps: seq<T.Step>)
    requires R.Represents(repo.rows, s) && worker !in s.open
    requires forall id | id in repo.rows :: id in locked <==> T.Locked(s, id)
    modifies repo
    ensures !enabled ==> repo.rows == old(repo.rows) && claimed == []
    ensures |outcomes| == |claimed| && Distinct(claimed) && forall id | id in claimed :: id in old(repo.rows)
    ensures enabled ==> R.TakesOldestFirst(old(repo.rows), locked, T.Batch(C.Telegram, now, lease, retry, claimed), batchSize)
    ensures C.Unsent !in outcomes
    ensures Drained(old(repo.rows), repo.rows, C.Telegram, claimed, |claimed|, now, outcomes, clock, maxAttempts)
    ensures Reported(d, old(repo.rows), claimed, |claimed|, replies, outcomes, sends, result)
    ensures OnTrack(s, steps, repo.rows, C.Telegram, claimed, |claimed|)
  {
    hide R.Represents, R.ClaimedRows, R.CompletedRow, R.ClaimStepsTaken, R.TakesOldestFirst, Drained, Reported, OnTrack;
    outcomes, sends, steps := [], [], [];
    if !enabled {
      NothingDrained(s, d, repo.rows, C.Telegram, now, clock, maxAttempts, replies);
      return DrainResult(0, 0, 0, 0, 0), [], outcomes, sends, steps;
    }
    claimed := repo.ClaimBatch(now, batchSize, lease, retry, locked, s, worker);
    result := DrainResult(|claimed|, 0, 0, 0, 0);
    steps := StartsOnTrack(s, worker, T.Batch(C.Telegram, now, lease, retry, claimed), batchSize, repo.rows);
    StartsDrained(old(repo.rows), repo.rows, C.Telegram, claimed, now, clock, maxAttempts);
    StartsReported(d, old(repo.rows), claimed, replies);
    for k := 0 to |claimed|
      invariant |outcomes| == k && C.Unsent !in outcomes
      invariant Drained(old(repo.rows), repo.rows, C.Telegram, claimed, k, now, outcomes, clock, maxAttempts)
      invariant Reported(d, old(repo.rows), claimed, k, replies, outcomes, sends, result)
      invariant OnTrack(s, steps, repo.rows, C.Telegram, claimed, k)
    {
      ghost var before := repo.rows;
      var resolved, outcome := FinishRow(repo, d, claimed, k, now, maxAttempts, replies, clock, old(repo.rows), outcomes);
      ReportedOneMore(d, old(repo.rows), claimed, k, replies, outcomes, sends, result);
      steps := StayOnTrack(s, steps, C.Telegram, claimed, k, outcome, clock(k), maxAttempts, before, repo.rows);
      if resolved.Destination? {
        sends := sends + [Send(claimed[k], resolved.chat)];
      }
      outcomes := outcomes + [outcome];
      result := Tally(result, C.Telegram, outcome);
    }
  }

  // -------------------------------------------------------- the push pass

  datatype PushSend = PushSend(id: nat, destination: PushDestination)

  function ToEach(id: nat, destinations: seq<PushDestination>): (r: seq<PushSend>)
    ensures |r| == |destinations|
  {
    seq(|destinations|, j requires 0 <= j < |destinations| => PushSend(id, destinations[j]))
  }

  /** The sends of a push batch: for each row, one to every device of its owner. */
  function PushSendLog(d: Reads, rows: map<nat, R.Record>, claimed: seq<nat>): seq<PushSend>
    requires forall id | id in claimed :: id in rows
  {
    if claimed == [] then []
    else
      var k := |claimed| - 1;
      PushSendLog(d, rows, claimed[..k]) + ToEach(claimed[k], Targets(PushRouteOf(d.At(k), rows[claimed[k]])))
  }

  ghost predicate HasDevice(devices: seq<Device>, user: nat, token: string) {
    exists i | 0 <= i < |devices| :: devices[i].userId == user && devices[i].token == token
  }

  ghost predicate Reaches(destinations: seq<PushDestination>, token: string) {
    exists j | 0 <= j < |destinations| :: destinations[j].token == token
  }

  /** The destinations of a user are exactly the user's devices. */
  lemma {:induction false} DevicesAreTheUsers(devices: seq<Device>, user: nat, token: string)
    ensures Reaches(DevicesOf(devices, user), token) <==> HasDevice(devices, user, token)
  {
    if devices != [] {
      var before, last, all := devices[..|devices| - 1], devices[|devices| - 1], DevicesOf(devices, user);
      DevicesAreTheUsers(before, user, token);
      var rest := DevicesOf(before, user);
      if Reaches(all, token) {
        var j :| 0 <= j < |all| && all[j].token == token;
        assert j < |rest| ==> rest[j].token == token;
      }
      if HasDevice(devices, user, token) {
        var i :| 0 <= i < |devices| && devices[i].userId == user && devices[i].token == token;
        if i < |before| {
          assert before[i] == devices[i];
          var j :| 0 <= j < |rest| && rest[j].token == token;
          assert all[j] == rest[j];
        } else {
          assert all[|rest|].token == token;
        }
      }
    }
  }

  ghost predicate ReachesOwnersDevice(d: Directory, rows: map<nat, R.Record>, send: PushSend) {
    && send.id in rows && OwnerOf(d, rows[send.id]).Some?
    && HasDevice(d.devices, OwnerOf(d, rows[send.id]).value, send.destination.token)
  }

  lemma TargetsAreTheOwners(d: Directory, rows: map<nat, R.Record>, id: nat, j: nat)
    requires id in rows && j < |Targets(PushRouteOf(d, rows[id]))|
    ensures ReachesOwnersDevice(d, rows, PushSend(id, Targets(PushRouteOf(d, rows[id]))[j]))
  {
    var owner, targets := OwnerOf(d, rows[id]), Targets(PushRouteOf(d, rows[id]));
    assert owner.Some? && targets == DevicesOf(d.devices, owner.value);
    DevicesAreTheUsers(d.devices, owner.value, targets[j].token);
  }

  /** A row's push alert goes to the devices of the row's own owner only. */
  lemma {:induction false} PushSendsReachOnlyTheOwner(d: Reads, rows: map<nat, R.Record>, claimed: seq<nat>, n: nat) returns (k: nat)
    requires (forall id | id in claimed :: id in rows) && n < |PushSendLog(d, rows, claimed)|
    ensures k < |claimed| && PushSendLog(d, rows, claimed)[n].id == claimed[k]
    ensures ReachesOwnersDevice(d.At(k), rows, PushSendLog(d, rows, claimed)[n])
  {
    hide PushRouteOf, Targets, ReachesOwnersDevice;
    k := |claimed| - 1;
    var prior, mine := PushSendLog(d, rows, claimed[..k]), ToEach(claimed[k], Targets(PushRouteOf(d.At(k), rows[claimed[k]])));
    assert PushSendLog(d, rows, claimed) == prior + mine;
    if n < |prior| {
      k := PushSendsReachOnlyTheOwner(d, rows, claimed[..k], n);
    } else {
      TargetsAreTheOwners(d.At(k), rows, claimed[k], n - |prior|);
    }
  }

  function AnswersOf(resolved: ResolvedPush, reply: nat -> Reply): seq<Reply> {
    seq(|Targets(resolved)|, m requires 0 <= m < |Targets(resolved)| => reply(m))
  }

  ghost predicate PushReported(
    d: Reads, rows: map<nat, R.Record>, claimed: seq<nat>, k: nat, replies: nat -> nat -> Reply,
    outcomes: seq<C.Outcome>, sends: seq<PushSend>, result: DrainResult)
    requires k <= |claimed| && forall id | id in claimed :: id in rows
  {
    && |outcomes| == k
    && (forall j | 0 <= j < k ::
          var route := PushRouteOf(d.At(j), rows[claimed[j]]); PushDelivered(route, AnswersOf(route, replies(j)), outcomes[j]))
    && sends == PushSendLog(d, rows, claimed[..k])
    && result == TallyAll(|claimed|, C.Push, outcomes)
  }

  lemma StartsPushReported(d: Reads, rows: map<nat, R.Record>, claimed: seq<nat>, replies: nat -> nat -> Reply)
    requires forall id | id in claimed :: id in rows
    ensures PushReported(d, rows, claimed, 0, replies, [], [], DrainResult(|claimed|, 0, 0, 0, 0))
  {
  }

  lemma PushReportedOneMore(
    d: Reads, rows: map<nat, R.Record>, claimed: seq<nat>, k: nat, replies: nat -> nat -> Reply,
    outcomes: seq<C.Outcome>, outcome: C.Outcome, sends: seq<PushSend>, result: DrainResult)
    requires k < |claimed| && forall id | id in claimed :: id in rows
    requires PushReported(d, rows, claimed, k, replies, outcomes, sends, result)
    requires var route := PushRouteOf(d.At(k), rows[claimed[k]]); PushDelivered(route, AnswersOf(route, replies(k)), outcome)
    ensures var route := PushRouteOf(d.At(k), rows[claimed[k]]);
            PushReported(d, rows, claimed, k + 1, replies, outcomes + [outcome],
                         sends + ToEach(claimed[k], Targets(route)), Tally(result, C.Push, outcome))
  {
    assert (outcomes + [outcome])[..k] == outcomes;
    assert claimed[..k + 1][..k] == claimed[..k];
  }

  /** Resolves, delivers and completes the k-th row of a push batch. */
  method FinishPushRow(
    repo: R.Repository, d: Reads, claimed: seq<nat>, k: nat, now: int, maxAttempts: int,
    replies: nat -> nat -> Reply, clock: nat -> int, ghost first: map<nat, R.Record>, ghost done: seq<C.Outcome>)
    returns (sends: seq<PushDestination>, outcome: C.Outcome)
    requires k < |claimed| && |done| == k && Distinct(claimed)
    requires Drained(first, repo.rows, C.Push, claimed, k, now, done, clock, maxAttempts)
    modifies repo
    ensures var route := PushRouteOf(d.At(k), first[claimed[k]]);
            sends == Targets(route) && PushDelivered(route, AnswersOf(route, replies(k)), outcome)
    ensures outcome != C.Unsent
    ensures R.CompletedRow(old(repo.rows), repo.rows, C.Push, claimed[k], clock(k), outcome == C.Accepted,
                           if outcome.Refused? then Some(outcome.error) else None, maxAttempts)
    ensures Drained(first, repo.rows, C.Push, claimed, k + 1, now, done + [outcome], clock, maxAttempts)
  {
    var resolved := PushRouteOf(d.At(k), repo.rows[claimed[k]]);
    outcome, sends := DeliverPush(resolved, AnswersOf(resolved, replies(k)));
    ghost var before := repo.rows;
    repo.CompletePush(claimed[k], clock(k), outcome == C.Accepted, if outcome.Refused? then Some(outcome.error) else None, maxAttempts);
    DrainedOneMore(first, before, repo.rows, C.Push, claimed, k, now, done, outcome, clock, maxAttempts);
  }

  /** One push drain pass; `replies(k)(j)` answers for the j-th device of the
      k-th row. It is a run of the step system too. */
  method DrainPendingPushNotifications(
    repo: R.Repository, d: Reads, enabled: bool, now: int, batchSize: nat, lease: int, retry: int, maxAttempts: int,
    locked: set<nat>, replies: nat -> nat -> Reply, clock: nat -> int, ghost s: T.State, ghost worker: nat)
    returns (result: DrainResult, claimed: seq<nat>, outcomes: seq<C.Outcome>, sends: seq<PushSend>, ghost steps: seq<T.Step>)
    requires R.Represents(repo.rows, s) && worker !in s.open
    requires forall id | id in repo.rows :: id in locked <==> T.Locked(s, id)
    modifies repo
    ensures !enabled ==> repo.rows == old(repo.rows) && claimed == []
    ensures |outcomes| == |claimed| && Distinct(claimed) && forall id | id in claimed :: id in old(repo.rows)
    ensures enabled ==> R.TakesOldestFirst(old(repo.rows), locked, T.Batch(C.Push, now, lease, retry, claimed), batchSize)
    ensures C.Unsent !in outcomes
    ensures Drained(old(repo.rows), repo.rows, C.Push, claimed, |claimed|, now, outcomes, clock, maxAttempts)
    ensures PushReported(d, old(repo.rows), claimed, |claimed|, replies, outcomes, sends, result)
    ensures OnTrack(s, steps, repo.rows, C.Push, claimed, |claimed|)
  {
    hide R.Represents, R.ClaimedRows, R.CompletedRow, R.ClaimStepsTaken, R.TakesOldestFirst, Drained, PushReported, OnTrack, PushDelivered;
    outcomes, sends, steps := [], [], [];
    if !enabled {
      NothingDrained(s, d, repo.rows, C.Push, now, clock, maxAttempts, _ => Taken);
      StartsPushReported(d, repo.rows, [], replies);
      return DrainResult(0, 0, 0, 0, 0), [], outcomes, sends, steps;
    }
    claimed := repo.ClaimPushBatch(now, batchSize, lease, retry, locked, s, worker);
    result := DrainResult(|claimed|, 0, 0, 0, 0);
    steps := StartsOnTrack(s, worker, T.Batch(C.Push, now, lease, retry, claimed), batchSize, repo.rows);
    StartsDrained(old(repo.rows), repo.rows, C.Push, claimed, now, clock, maxAttempts);
    StartsPushReported(d, old(repo.rows), claimed, replies);
    for k := 0 to |claimed|
      invariant |outcomes| == k && C.Unsent !in outcomes
      invariant Drained(old(repo.rows), repo.rows, C.Push, claimed, k, now, outcomes, clock, maxAttempts)
      invariant PushReported(d, old(repo.rows), claimed, k, replies, outcomes, sends, result)
      invariant OnTrack(s, steps, repo.rows, C.Push, claimed, k)
    {
      ghost var before := repo.rows;
      var destinations, outcome := FinishPushRow(repo, d, claimed, k, now, maxAttempts, replies, clock, old(repo.rows), outcomes);
      PushReportedOneMore(d, old(repo.rows), claimed, k, replies, outcomes, outcome, sends, result);
      steps := StayOnTrack(s, steps, C.Push, claimed, k, outcome, clock(k), maxAttempts, before, repo.rows);
      sends := sends + ToEach(claimed[k], destinations);
      outcomes := outcomes + [outcome];
      result := Tally(result, C.Push, outcome);
    }
  }
}
