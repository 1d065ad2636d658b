/** What a drain pass leaves behind, told in the tables alone: who owns a row,
    where the owner can be reached, what the provider answered, and the columns
    and sends at the end of the pass. */
module DrainOutcomes {

  import opened Sql
  import opened Drain
  import C = OutboxChannel
  import R = OutboxRepository

  /** `u` is written on the row; or nobody is, and `u` owns the search that
      first discovered the row's listing. `k` is the row's turn. */
  ghost predicate Owns(d: Reads, k: nat, row: R.Record, u: nat) {
    || row.userId == Some(u)
    || (row.userId == None && exists search ::
          && row.discoveredListingId in d.discoveredBy && d.discoveredBy[row.discoveredListingId] == Some(search)
          && search in d.directory(k).searchOwner && d.directory(k).searchOwner[search] == Some(u))
  }

  /** The owner's chat, when there is one. */
  ghost predicate ChatOfOwner(d: Reads, k: nat, row: R.Record, chat: string) {
    exists u :: Owns(d, k, row, u) && chat != "" && u in d.directory(k).chatId && d.directory(k).chatId[u] == Some(chat)
  }

  lemma RouteIsTheOwnersChat(d: Reads, k: nat, row: R.Record, chat: string)
    ensures OwnerOf(d.At(k), row).Some? ==> Owns(d, k, row, OwnerOf(d.At(k), row).value)
    ensures forall u: nat | Owns(d, k, row, u) :: OwnerOf(d.At(k), row) == Some(u)
    ensures RouteOf(d.At(k), row) == Destination(chat) <==> ChatOfOwner(d, k, row, chat)
    ensures RouteOf(d.At(k), row) == NoDestination(C.OwnerUnresolved) <==> !exists u :: Owns(d, k, row, u)
    ensures RouteOf(d.At(k), row) in {NoDestination(C.OwnerUnresolved), NoDestination(C.AwaitingDestination)} ||
            RouteOf(d.At(k), row).Destination?
  {
    var owner := OwnerOf(d.At(k), row);
    if owner.Some? {
      assert Owns(d, k, row, owner.value);
    }
    if RouteOf(d.At(k), row) == Destination(chat) {
      assert Owns(d, k, row, owner.value);
    }
  }

  lemma {:induction false} SendLogHas(d: Reads, rows: map<nat, R.Record>, claimed: seq<nat>, j: nat, chat: string)
    requires j < |claimed| && (forall id | id in claimed :: id in rows) && Distinct(claimed)
    ensures Send(claimed[j], chat) in SendLog(d, rows, claimed) <==> RouteOf(d.At(j), rows[claimed[j]]) == Destination(chat)
  {
    hide RouteOf;
    var k := |claimed| - 1;
    if j < k {
      SendLogHas(d, rows, claimed[..k], j, chat);
    } else {
      SendsReachOnlyTheOwner(d, rows, claimed[..k]);
      forall n | 0 <= n < |SendLog(d, rows, claimed[..k])|
        ensures SendLog(d, rows, claimed[..k])[n].id != claimed[k]
      {
        assert SomeOwnerGets(d, rows, claimed[..k], SendLog(d, rows, claimed[..k])[n]);
      }
    }
  }

  lemma ColumnsAfter(
    before: map<nat, R.Record>, after: map<nat, R.Record>, kind: C.Kind, claimed: seq<nat>, j: nat, now: int,
    outcomes: seq<C.Outcome>, clock: nat -> int, max: int)
    requires j < |claimed| == |outcomes| && Drained(before, after, kind, claimed, |claimed|, now, outcomes, clock, max)
    ensures claimed[j] in before && claimed[j] in after && after[claimed[j]].DiffersOnlyOn(before[claimed[j]], kind)
    ensures after[claimed[j]].Columns(kind) ==
            C.Completed(kind, C.Claimed(before[claimed[j]].Columns(kind), now), clock(j), outcomes[j] == C.Accepted,
                        if outcomes[j].Refused? then Some(outcomes[j].error) else None, max)
  {
  }

  /** The row at position `j` of a batch, after the pass. It is sent exactly when
      its owner has a chat and the provider took the message, and the provider is
      called for it exactly when there is such a chat. A provider that raised is
      quoted; a missing chat or owner is named, and only the chat is waited for. */
  lemma PassDecidesEachRow(
    d: Reads, before: map<nat, R.Record>, after: map<nat, R.Record>, claimed: seq<nat>, j: nat, now: int,
    replies: nat -> Reply, outcomes: seq<C.Outcome>, sends: seq<Send>, result: DrainResult, clock: nat -> int, max: int)
    requires j < |claimed| == |outcomes| && Distinct(claimed) && forall id | id in claimed :: id in before
    requires Drained(before, after, C.Telegram, claimed, |claimed|, now, outcomes, clock, max)
    requires Reported(d, before, claimed, |claimed|, replies, outcomes, sends, result)
    ensures claimed[j] in after
    ensures var row, end := before[claimed[j]], after[claimed[j]];
            && end == row.(status := end.status, attemptCount := end.attemptCount, claimedAt := Some(now),
                           lastAttemptedAt := Some(clock(j)), lastError := end.lastError, sentAt := end.sentAt)
            && (end.status == C.Sent <==> (exists chat :: ChatOfOwner(d, j, row, chat)) && replies(j).Taken?)
            && (end.status == C.Sent ==> end.sentAt == Some(clock(j)) && end.lastError == None && end.attemptCount == row.attemptCount + 1)
            && (forall chat | ChatOfOwner(d, j, row, chat) && replies(j).Raised? :: end.lastError == Some(replies(j).error))
            && ((exists u :: Owns(d, j, row, u)) && !(exists chat :: ChatOfOwner(d, j, row, chat)) ==>
                  end.lastError == Some(C.AwaitingDestination))
            && (!(exists u :: Owns(d, j, row, u)) ==> end.lastError == Some(C.OwnerUnresolved))
            && (end.lastError == Some(C.AwaitingDestination) ==>
                  end.status == C.Pending && end.sentAt == row.sentAt && end.attemptCount == if row.attemptCount > 0 then row.attemptCount else 0)
            && (end.status != C.Sent && end.lastError != Some(C.AwaitingDestination) ==>
                  && end.attemptCount == row.attemptCount + 1 && end.sentAt == row.sentAt
                  && end.status == if row.attemptCount + 1 >= max then C.Failed else C.Pending)
    ensures forall chat :: Send(claimed[j], chat) in sends <==> ChatOfOwner(d, j, before[claimed[j]], chat)
  {
    hide RouteOf, ChatOfOwner, Owns, OwnerOf, SendLog, TallyAll, Drained;
    ColumnsAfter(before, after, C.Telegram, claimed, j, now, outcomes, clock, max);
    var row, route := before[claimed[j]], RouteOf(d.At(j), before[claimed[j]]);
    assert claimed[..|claimed|] == claimed;
    forall chat
      ensures route == Destination(chat) <==> ChatOfOwner(d, j, row, chat)
      ensures Send(claimed[j], chat) in sends <==> ChatOfOwner(d, j, row, chat)
    {
      RouteIsTheOwnersChat(d, j, row, chat);
      SendLogHas(d, before, claimed, j, chat);
    }
    RouteIsTheOwnersChat(d, j, row, "");
    if route.Destination? {
      assert ChatOfOwner(d, j, row, route.chat);
    }
  }

  // ------------------------------------------------------------- push

  /** The user's devices among the first `n`. */
  ghost function DevicesBefore(devices: seq<Device>, user: nat, n: nat): set<int>
    requires n <= |devices|
  {
    set m | 0 <= m < n && devices[m].userId == user
  }

  /** A device is addressed by its token, on its own channel or the default one. */
  ghost predicate Addresses(destination: PushDestination, device: Device) {
    && destination.token == device.token
    && destination.channelId == (if device.channelId in {None, Some("")} then "listing-alerts-default-v1" else device.channelId.value)
  }

  /** The destinations of a user are the user's devices, one each, in order. */
  lemma {:induction false} DestinationPerDevice(devices: seq<Device>, user: nat)
    ensures |DevicesOf(devices, user)| == |DevicesBefore(devices, user, |devices|)|
  {
    if devices == [] {
      assert DevicesBefore(devices, user, 0) == {};
    } else {
      var k := |devices| - 1;
      DestinationPerDevice(devices[..k], user);
      assert DevicesBefore(devices, user, |devices|) ==
             DevicesBefore(devices[..k], user, k) + if devices[k].userId == user then {k} else {};
    }
  }

  lemma {:induction false} DestinationOfDevice(devices: seq<Device>, user: nat, i: nat)
    requires i < |devices| && devices[i].userId == user
    ensures |DevicesBefore(devices, user, i)| < |DevicesOf(devices, user)|
    ensures Addresses(DevicesOf(devices, user)[|DevicesBefore(devices, user, i)|], devices[i])
  {
    var k := |devices| - 1;
    assert DevicesBefore(devices[..k], user, i) == DevicesBefore(devices, user, i);
    if i < k {
      DestinationOfDevice(devices[..k], user, i);
    } else {
      DestinationPerDevice(devices[..k], user);
    }
  }

  lemma {:induction false} DeviceOfDestination(devices: seq<Device>, user: nat, n: nat) returns (i: nat)
    requires n < |DevicesOf(devices, user)|
    ensures i < |devices| && devices[i].userId == user && Addresses(DevicesOf(devices, user)[n], devices[i])
  {
    i := |devices| - 1;
    if n < |DevicesOf(devices[..i], user)| {
      i := DeviceOfDestination(devices[..i], user, n);
    }
  }

  /** How many devices the row's owner has at the row's turn. */
  ghost predicate OwnerHasDevices(d: Reads, k: nat, row: R.Record, n: nat) {
    exists u :: Owns(d, k, row, u) && n == |DevicesBefore(d.directory(k).devices, u, |d.directory(k).devices|)|
  }

  /** The destination is a device the row's owner has at the row's turn. */
  ghost predicate IsOwnersDevice(d: Reads, k: nat, row: R.Record, destination: PushDestination) {
    exists u: nat, i: nat ::
      Owns(d, k, row, u) && i < |d.directory(k).devices| && d.directory(k).devices[i].userId == u && Addresses(destination, d.directory(k).devices[i])
  }

  lemma PushRouteIsTheOwnersDevices(d: Reads, k: nat, row: R.Record)
    ensures var route := PushRouteOf(d.At(k), row);
            && (route == NoDevice(C.OwnerUnresolved) || OwnerHasDevices(d, k, row, |Targets(route)|))
            && (route.NoDevice? ==> route.reason == if exists u :: Owns(d, k, row, u) then C.NoDeviceRegistered else C.OwnerUnresolved)
            && (route.Devices? ==> route.destinations != [] && exists u :: Owns(d, k, row, u))
    ensures forall n: nat | OwnerHasDevices(d, k, row, n) ::
              PushRouteOf(d.At(k), row) != NoDevice(C.OwnerUnresolved) && n == |Targets(PushRouteOf(d.At(k), row))|
  {
    RouteIsTheOwnersChat(d, k, row, "");
    var owner := OwnerOf(d.At(k), row);
    if owner.Some? {
      assert Owns(d, k, row, owner.value);
      DestinationPerDevice(d.directory(k).devices, owner.value);
    }
  }

  lemma TargetsAreOwnersDevices(d: Reads, k: nat, row: R.Record, destination: PushDestination)
    ensures destination in Targets(PushRouteOf(d.At(k), row)) <==> IsOwnersDevice(d, k, row, destination)
  {
    hide Owns, OwnerOf, DevicesOf;
    RouteIsTheOwnersChat(d, k, row, "");
    var owner, targets := OwnerOf(d.At(k), row), Targets(PushRouteOf(d.At(k), row));
    if owner.Some? {
      var devices := d.directory(k).devices;
      assert Owns(d, k, row, owner.value) && targets == DevicesOf(devices, owner.value);
      if destination in targets {
        var n :| 0 <= n < |targets| && targets[n] == destination;
        var i := DeviceOfDestination(devices, owner.value, n);
      }
      if IsOwnersDevice(d, k, row, destination) {
        var u: nat, i: nat :| Owns(d, k, row, u) && i < |devices| && devices[i].userId == u && Addresses(destination, devices[i]);
        DestinationOfDevice(devices, owner.value, i);
      }
    }
  }

  lemma {:induction false} PushSendLogHas(
    d: Reads, rows: map<nat, R.Record>, claimed: seq<nat>, j: nat, destination: PushDestination)
    requires j < |claimed| && (forall id | id in claimed :: id in rows) && Distinct(claimed)
    ensures PushSend(claimed[j], destination) in PushSendLog(d, rows, claimed)
            <==> destination in Targets(PushRouteOf(d.At(j), rows[claimed[j]]))
  {
    hide PushRouteOf, Targets;
    var k := |claimed| - 1;
    var prior, targets := PushSendLog(d, rows, claimed[..k]), Targets(PushRouteOf(d.At(k), rows[claimed[k]]));
    var mine, send := ToEach(claimed[k], targets), PushSend(claimed[j], destination);
    assert send in prior + mine <==> send in prior || send in mine;
    if j < k {
      PushSendLogHas(d, rows, claimed[..k], j, destination);
    } else {
      forall n | 0 <= n < |prior|
        ensures prior[n].id != claimed[k]
      {
        var i := PushSendsReachOnlyTheOwner(d, rows, claimed[..k], n);
      }
      if destination in targets {
        var n :| 0 <= n < |targets| && targets[n] == destination;
        assert mine[n] == send;
      }
    }
  }

  /** The error reported when no device took the push: the last one's. */
  ghost predicate LastErrorOf(reply: nat -> Reply, n: nat, error: Option<C.ErrorText>)
    requires n > 0
  {
    && reply(n - 1).Raised?
    && error == Some(if reply(n - 1).error == C.OtherError("") then C.OtherError("Push delivery failed for every registered device")
                     else reply(n - 1).error)
  }

  lemma PushOutcome(d: Reads, k: nat, row: R.Record, reply: nat -> Reply, outcome: C.Outcome)
    requires var route := PushRouteOf(d.At(k), row); PushDelivered(route, AnswersOf(route, reply), outcome)
    ensures outcome == C.Accepted <==> exists n: nat, m: nat :: m < n && OwnerHasDevices(d, k, row, n) && reply(m).Taken?
    ensures outcome == C.Accepted || outcome.Refused?
    ensures forall n: nat | n > 0 && OwnerHasDevices(d, k, row, n) && outcome.Refused? :: LastErrorOf(reply, n, Some(outcome.error))
    ensures OwnerHasDevices(d, k, row, 0) ==> outcome == C.Refused(C.NoDeviceRegistered)
    ensures !(exists u :: Owns(d, k, row, u)) ==> outcome == C.Refused(C.OwnerUnresolved)
  {
    hide PushRouteOf, OwnerHasDevices, Owns;
    PushRouteIsTheOwnersDevices(d, k, row);
    var route := PushRouteOf(d.At(k), row);
    var answers := AnswersOf(route, reply);
    if AnyTaken(answers) {
      var m :| 0 <= m < |answers| && answers[m].Taken?;
      assert OwnerHasDevices(d, k, row, |answers|) && reply(m).Taken?;
    } else if answers != [] {
      assert answers[|answers| - 1] == reply(|answers| - 1);
    }
    if n: nat, m: nat :| m < n && OwnerHasDevices(d, k, row, n) && reply(m).Taken? {
      assert n == |answers| && answers[m].Taken?;
    }
  }

  lemma PushColumns(row: R.Record, end: R.Record, now: int, at: int, outcome: C.Outcome, max: int)
    requires outcome == C.Accepted || outcome.Refused?
    requires end.Columns(C.Push) ==
             C.Completed(C.Push, C.Claimed(row.Columns(C.Push), now), at, outcome == C.Accepted,
                         if outcome.Refused? then Some(outcome.error) else None, max)
    ensures end.pushClaimedAt == Some(now) && end.pushLastAttemptedAt == Some(at)
    ensures end.pushStatus == C.Sent <==> outcome == C.Accepted
    ensures end.pushLastError == if outcome.Refused? then Some(outcome.error) else None
    ensures end.pushStatus == C.Sent ==> end.pushSentAt == Some(at) && end.pushAttemptCount == row.pushAttemptCount + 1
    ensures end.pushStatus != C.Sent ==> end.pushSentAt == row.pushSentAt
    ensures end.pushLastError == Some(C.NoDeviceRegistered) ==>
              end.pushStatus == C.Pending && end.pushAttemptCount == if row.pushAttemptCount > 0 then row.pushAttemptCount else 0
    ensures end.pushStatus != C.Sent && end.pushLastError != Some(C.NoDeviceRegistered) ==>
              && end.pushAttemptCount == row.pushAttemptCount + 1
              && end.pushStatus == if row.pushAttemptCount + 1 >= max then C.Failed else C.Pending
  {
  }

  /** The push side of the row at position `j`, after the pass: sent exactly when
      one of the owner's devices took the push; otherwise the last device, the
      missing device or the missing owner is named, and only a device is waited
      for. The provider is called for exactly the owner's devices. */
  lemma PushPassDecidesEachRow(
    d: Reads, before: map<nat, R.Record>, after: map<nat, R.Record>, claimed: seq<nat>, j: nat, now: int,
    replies: nat -> nat -> Reply, outcomes: seq<C.Outcome>, sends: seq<PushSend>, result: DrainResult, clock: nat -> int, max: int)
    requires j < |claimed| == |outcomes| && Distinct(claimed) && forall id | id in claimed :: id in before
    requires Drained(before, after, C.Push, claimed, |claimed|, now, outcomes, clock, max)
    requires PushReported(d, before, claimed, |claimed|, replies, outcomes, sends, result)
    ensures claimed[j] in after
    ensures var row, end := before[claimed[j]], after[claimed[j]];
            && end == row.(pushStatus := end.pushStatus, pushAttemptCount := end.pushAttemptCount, pushClaimedAt := Some(now),
                           pushLastAttemptedAt := Some(clock(j)), pushLastError := end.pushLastError, pushSentAt := end.pushSentAt)
            && (end.pushStatus == C.Sent <==>
                  exists n: nat, m: nat :: m < n && OwnerHasDevices(d, j, row, n) && replies(j)(m).Taken?)
            && (end.pushStatus == C.Sent ==>
                  end.pushSentAt == Some(clock(j)) && end.pushLastError == None && end.pushAttemptCount == row.pushAttemptCount + 1)
            && (forall n: nat | n > 0 && OwnerHasDevices(d, j, row, n) && end.pushStatus != C.Sent ::
                  LastErrorOf(replies(j), n, end.pushLastError))
            && (OwnerHasDevices(d, j, row, 0) ==> end.pushLastError == Some(C.NoDeviceRegistered))
            && (!(exists u :: Owns(d, j, row, u)) ==> end.pushLastError == Some(C.OwnerUnresolved))
            && (end.pushLastError == Some(C.NoDeviceRegistered) ==>
                  && end.pushStatus == C.Pending && end.pushSentAt == row.pushSentAt
                  && end.pushAttemptCount == if row.pushAttemptCount > 0 then row.pushAttemptCount else 0)
            && (end.pushStatus != C.Sent && end.pushLastError != Some(C.NoDeviceRegistered) ==>
                  && end.pushAttemptCount == row.pushAttemptCount + 1 && end.pushSentAt == row.pushSentAt
                  && end.pushStatus == if row.pushAttemptCount + 1 >= max then C.Failed else C.Pending)
    ensures forall destination ::
              PushSend(claimed[j], destination) in sends <==> IsOwnersDevice(d, j, before[claimed[j]], destination)
  {
    hide PushRouteOf, IsOwnersDevice, OwnerHasDevices, Owns, PushSendLog, TallyAll, Drained, PushDelivered, C.Completed, C.Claimed;
    ColumnsAfter(before, after, C.Push, claimed, j, now, outcomes, clock, max);
    var row, route := before[claimed[j]], PushRouteOf(d.At(j), before[claimed[j]]);
    assert claimed[..|claimed|] == claimed;
    forall destination
      ensures PushSend(claimed[j], destination) in sends <==> IsOwnersDevice(d, j, row, destination)
    {
      TargetsAreOwnersDevices(d, j, row, destination);
      PushSendLogHas(d, before, claimed, j, destination);
    }
    PushRouteIsTheOwnersDevices(d, j, row);
    PushOutcome(d, j, row, replies(j), outcomes[j]);
    PushColumns(before[claimed[j]], after[claimed[j]], now, clock(j), outcomes[j], max);
  }

  // --------------------------------------------------------- counters

  ghost predicate QuotedOnly(outcome: C.Outcome, c: C.Columns) {
    && c.lastError == (if outcome.Refused? then Some(outcome.error) else None)
    && (c.status == C.Sent <==> !outcome.Refused?)
  }

  lemma ColumnsQuote(
    before: map<nat, R.Record>, after: map<nat, R.Record>, kind: C.Kind, claimed: seq<nat>, j: nat, now: int,
    outcomes: seq<C.Outcome>, clock: nat -> int, max: int)
    requires j < |claimed| == |outcomes| && Drained(before, after, kind, claimed, |claimed|, now, outcomes, clock, max)
    requires outcomes[j] != C.Unsent
    ensures claimed[j] in after && QuotedOnly(outcomes[j], after[claimed[j]].Columns(kind))
  {
    hide Drained;
    ColumnsAfter(before, after, kind, claimed, j, now, outcomes, clock, max);
  }

  /** The counters of a pass, read off the table it leaves. */
  lemma CountersCountRows(
    before: map<nat, R.Record>, after: map<nat, R.Record>, kind: C.Kind, claimed: seq<nat>, now: int,
    outcomes: seq<C.Outcome>, result: DrainResult, clock: nat -> int, max: int)
    requires |claimed| == |outcomes| && (forall id | id in claimed :: id in before) && C.Unsent !in outcomes
    requires Drained(before, after, kind, claimed, |claimed|, now, outcomes, clock, max)
    requires result == TallyAll(|claimed|, kind, outcomes)
    ensures forall id | id in claimed :: id in after
    ensures var sent := set j | 0 <= j < |claimed| && after[claimed[j]].Columns(kind).status == C.Sent;
            var waiting := if kind == C.Telegram then C.AwaitingDestination else C.NoDeviceRegistered;
            var awaiting := set j | 0 <= j < |claimed| && after[claimed[j]].Columns(kind).lastError == Some(waiting);
            var unresolved := set j | 0 <= j < |claimed| && after[claimed[j]].Columns(kind).lastError == Some(C.OwnerUnresolved);
            && result.claimed == |claimed| && result.sent == |sent|
            && result.awaiting == |awaiting| && result.unresolved == |unresolved|
            && result.failed == |claimed| - |sent| - |awaiting| - |unresolved|
  {
    hide TallyAll, Drained, C.Completed;
    TallyIsComplete(|claimed|, kind, outcomes);
    forall j | 0 <= j < |claimed|
      ensures claimed[j] in after && QuotedOnly(outcomes[j], after[claimed[j]].Columns(kind))
    {
      assert outcomes[j] in outcomes;
      ColumnsQuote(before, after, kind, claimed, j, now, outcomes, clock, max);
    }
    var waiting := if kind == C.Telegram then C.AwaitingDestination else C.NoDeviceRegistered;
    assert (set j | 0 <= j < |claimed| && after[claimed[j]].Columns(kind).status == C.Sent) == Sent(outcomes);
    assert (set j | 0 <= j < |claimed| && after[claimed[j]].Columns(kind).lastError == Some(waiting)) ==
           Positions(outcomes, C.Refused(waiting));
    assert (set j | 0 <= j < |claimed| && after[claimed[j]].Columns(kind).lastError == Some(C.OwnerUnresolved)) ==
           Positions(outcomes, C.Refused(C.OwnerUnresolved));
  }
}
