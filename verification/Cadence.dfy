/** When a saved search is due. A pass stamps the searches it scans with the time
    the pass started; a manual run stamps the time it began. Times are seconds. */
module Cadence {

  import opened Sql

  datatype Search = Search(active: bool, interval: nat, lastScanned: Option<real>)

  type Searches = map<nat, Search>

  function Grace(grace: real, interval: nat): real {
    var nonNegative := if grace < 0.0 then 0.0 else grace;
    if nonNegative < interval as real / 2.0 then nonNegative else interval as real / 2.0
  }

  /** How long after a stamp the search is due again. */
  function Wait(grace: real, interval: nat): (w: real)
    ensures interval as real / 2.0 <= w <= interval as real
  {
    interval as real - Grace(grace, interval)
  }

  predicate Due(s: Search, now: real, grace: real) {
    s.active && (s.lastScanned.None? || s.lastScanned.value + Wait(grace, s.interval) <= now)
  }

  /** The three cases of the grace: none, some, and more than half the interval. */
  lemma DueIff(s: Search, now: real, grace: real)
    ensures !s.active ==> !Due(s, now, grace)
    ensures s.active && s.lastScanned == None ==> Due(s, now, grace)
    ensures s.active && s.lastScanned != None ==>
              var since, whole := now - s.lastScanned.value, s.interval as real;
              && (grace <= 0.0 ==> (Due(s, now, grace) <==> since >= whole))
              && (0.0 <= grace <= whole / 2.0 ==> (Due(s, now, grace) <==> since >= whole - grace))
              && (whole / 2.0 <= grace ==> (Due(s, now, grace) <==> since >= whole / 2.0))
  {
  }

  /** The searches after a pass that started at `now`. */
  function Passed(searches: Searches, now: real, grace: real): Searches {
    map id | id in searches ::
      if Due(searches[id], now, grace) then searches[id].(lastScanned := Some(now)) else searches[id]
  }

  function Dues(searches: Searches, ids: seq<nat>, now: real, grace: real): seq<nat>
    requires forall id | id in ids :: id in searches
  {
    if ids == [] then []
    else
      var n := |ids| - 1;
      Dues(searches, ids[..n], now, grace) + if Due(searches[ids[n]], now, grace) then [ids[n]] else []
  }

  lemma {:induction false} DuesHold(searches: Searches, ids: seq<nat>, now: real, grace: real)
    requires forall id | id in ids :: id in searches
    ensures forall id :: id in Dues(searches, ids, now, grace) <==> id in ids && Due(searches[id], now, grace)
  {
    if ids != [] {
      DuesHold(searches, ids[..|ids| - 1], now, grace);
      assert ids == ids[..|ids| - 1] + [ids[|ids| - 1]];
    }
  }

  class SavedSearches {
    var searches: Searches

    constructor (searches: Searches)
      ensures this.searches == searches
    {
      this.searches := searches;
    }

    /** `list_due_for_scan` over the active searches, in whatever order. */
    method ListDueForScan(ids: seq<nat>, now: real, grace: real) returns (due: seq<nat>)
      requires forall id | id in ids :: id in searches && searches[id].active
      ensures due == Dues(searches, ids, now, grace)
    {
      due := [];
      var allowance := if grace < 0.0 then 0.0 else grace;
      for i := 0 to |ids|
        invariant due == Dues(searches, ids[..i], now, grace)
      {
        assert ids[..i + 1][..i] == ids[..i];
        var s := searches[ids[i]];
        if s.lastScanned.None? {
          due := due + [ids[i]];
          continue;
        }
        var half := s.interval as real / 2.0;
        var effective := if allowance < half then allowance else half;
        if s.lastScanned.value + (s.interval as real - effective) <= now {
          due := due + [ids[i]];
        }
      }
      assert ids[..|ids|] == ids;
    }

    method MarkScanned(id: nat, at: real)
      requires id in searches
      modifies this
      ensures searches == old(searches)[id := old(searches)[id].(lastScanned := Some(at))]
    {
      searches := searches[id := searches[id].(lastScanned := Some(at))];
    }

    /** A scheduled pass: the due searches are run and stamped one by one. */
    method RunPass(ids: seq<nat>, now: real, grace: real)
      requires forall id :: id in ids <==> id in searches && searches[id].active
      modifies this
      ensures searches == Passed(old(searches), now, grace)
      // On the columns: the active searches whose time has come, and they alone,
      // are stamped with the start of the pass.
      ensures searches.Keys == old(searches).Keys
      ensures forall id | id in searches ::
                var s := old(searches)[id];
                var early := if grace <= 0.0 then 0.0 else if 2.0 * grace <= s.interval as real then grace else s.interval as real / 2.0;
                searches[id] ==
                if s.active && (s.lastScanned == None || now - s.lastScanned.value >= s.interval as real - early)
                then s.(lastScanned := Some(now)) else s
    {
      var due := ListDueForScan(ids, now, grace);
      DuesHold(searches, ids, now, grace);
      for i := 0 to |due|
        invariant searches.Keys == old(searches).Keys
        invariant forall id | id in searches ::
                    searches[id] == if id in due[..i] then old(searches)[id].(lastScanned := Some(now)) else old(searches)[id]
      {
        MarkScanned(due[i], now);
        assert due[..i + 1] == due[..i] + [due[i]];
      }
      assert due[..|due|] == due;
    }
  }

  // -------------------------------------------------------------- spacing

  /** What happens to one search; times do not go back. */
  datatype Event = Pass(at: real, grace: real) | Manual(at: real) | SetActive(active: bool)

  datatype Stamp = Stamp(at: real, scheduled: bool, grace: real)

  datatype State = State(search: Search, stamps: seq<Stamp>, clock: real)

  ghost function Apply(s: State, e: Event): State {
    match e
    case Pass(at, grace) =>
      if Due(s.search, at, grace) then State(s.search.(lastScanned := Some(at)), s.stamps + [Stamp(at, true, grace)], at)
      else s.(clock := at)
    case Manual(at) => State(s.search.(lastScanned := Some(at)), s.stamps + [Stamp(at, false, 0.0)], at)
    case SetActive(active) => s.(search := s.search.(active := active))
  }

  ghost predicate Enabled(s: State, e: Event) {
    e.SetActive? || s.clock <= e.at
  }

  ghost function Replay(interval: nat, run: seq<Event>): State {
    if run == [] then State(Search(true, interval, None), [], 0.0) else Apply(Replay(interval, run[..|run| - 1]), run[|run| - 1])
  }

  ghost predicate Legal(interval: nat, run: seq<Event>) {
    run == [] || (Legal(interval, run[..|run| - 1]) && Enabled(Replay(interval, run[..|run| - 1]), run[|run| - 1]))
  }

  ghost predicate Inv(interval: nat, s: State) {
    && s.search.interval == interval
    && (s.search.lastScanned.Some? <==> s.stamps != [])
    && (s.stamps != [] ==> s.search.lastScanned == Some(s.stamps[|s.stamps| - 1].at))
    && (forall i | 0 <= i < |s.stamps| :: s.stamps[i].at <= s.clock)
    && (forall i, j | 0 <= i < j < |s.stamps| :: s.stamps[i].at <= s.stamps[j].at)
    && (forall i, j | 0 <= i < j < |s.stamps| && s.stamps[j].scheduled ::
          s.stamps[j].at - s.stamps[i].at >= Wait(s.stamps[j].grace, interval))
  }

  lemma StepKeepsInv(interval: nat, s: State, e: Event)
    requires Inv(interval, s) && Enabled(s, e)
    ensures Inv(interval, Apply(s, e))
  {
    assert s.stamps != [] ==> forall i | 0 <= i < |s.stamps| :: s.stamps[i].at <= s.stamps[|s.stamps| - 1].at;
  }

  lemma {:induction false} RunsKeepInv(interval: nat, run: seq<Event>)
    requires Legal(interval, run)
    ensures Inv(interval, Replay(interval, run))
  {
    if run != [] {
      RunsKeepInv(interval, run[..|run| - 1]);
      StepKeepsInv(interval, Replay(interval, run[..|run| - 1]), run[|run| - 1]);
    }
  }

  /** A scheduled scan comes at least `interval - min(grace, interval / 2)`, hence
      at least half an interval, after every earlier scan of the search. */
  lemma ScheduledScansAreSpaced(interval: nat, run: seq<Event>, i: nat, j: nat)
    requires Legal(interval, run) && i < j < |Replay(interval, run).stamps| && Replay(interval, run).stamps[j].scheduled
    ensures var stamps := Replay(interval, run).stamps;
            stamps[j].at - stamps[i].at >= Wait(stamps[j].grace, interval) >= interval as real / 2.0
  {
    RunsKeepInv(interval, run);
  }

  // -------------------------------------------------------------- cadence

  /** When the search was last stamped, before pass `n` of a schedule that starts
      with the search never scanned and has no manual runs. */
  ghost function LastBefore(starts: nat -> real, interval: nat, grace: real, n: nat): Option<real>
    decreases n, 0
  {
    if n == 0 then None
    else if ScannedAt(starts, interval, grace, n - 1) then Some(starts(n - 1))
    else LastBefore(starts, interval, grace, n - 1)
  }

  ghost predicate ScannedAt(starts: nat -> real, interval: nat, grace: real, n: nat)
    decreases n, 1
  {
    Due(Search(true, interval, LastBefore(starts, interval, grace, n)), starts(n), grace)
  }

  function Periods(k: nat, period: nat): real {
    (k * period) as real
  }

  /** Any two passes `k` apart start within `jitter` of `k` periods. */
  ghost predicate Steady(starts: nat -> real, period: nat, jitter: real) {
    forall i: nat, k: nat :: Periods(k, period) - jitter <= starts(i + k) - starts(i) <= Periods(k, period) + jitter
  }

  /** The jitter is no more than the grace in effect, and one pass too few, if
      there is one, is still too early. */
  ghost predicate Tolerates(period: nat, m: nat, jitter: real, grace: real) {
    && m > 0 && 0.0 <= jitter <= Grace(grace, m * period)
    && (m > 1 ==> Periods(m - 1, period) + jitter < Wait(grace, m * period))
  }

  lemma FewerPeriods(r: nat, m: nat, period: nat)
    requires r < m
    ensures Periods(r, period) <= Periods(m - 1, period)
  {
    assert r * period <= (m - 1) * period;
  }

  /** `r` passes after a scan the search is due again exactly when `r` is `m`. */
  lemma DueAfterMPasses(starts: nat -> real, period: nat, m: nat, jitter: real, grace: real, scan: nat, r: nat)
    requires Steady(starts, period, jitter) && Tolerates(period, m, jitter, grace) && 0 < r <= m
    ensures Due(Search(true, m * period, Some(starts(scan))), starts(scan + r), grace) <==> r == m
  {
    var gap := starts(scan + r) - starts(scan);
    assert Periods(r, period) - jitter <= gap <= Periods(r, period) + jitter;
    if r < m {
      FewerPeriods(r, m, period);
    }
  }

  lemma {:induction false} CadenceSoFar(starts: nat -> real, period: nat, m: nat, jitter: real, grace: real, scan: nat, r: nat)
    requires Steady(starts, period, jitter) && Tolerates(period, m, jitter, grace) && r < m
    requires ScannedAt(starts, m * period, grace, scan)
    ensures LastBefore(starts, m * period, grace, scan + r + 1) == Some(starts(scan))
    ensures r > 0 ==> !ScannedAt(starts, m * period, grace, scan + r)
  {
    if r > 0 {
      CadenceSoFar(starts, period, m, jitter, grace, scan, r - 1);
      DueAfterMPasses(starts, period, m, jitter, grace, scan, r);
    }
  }

  lemma {:induction false} ScannedEachCycle(starts: nat -> real, period: nat, m: nat, jitter: real, grace: real, q: nat)
    requires Steady(starts, period, jitter) && Tolerates(period, m, jitter, grace)
    ensures ScannedAt(starts, m * period, grace, q * m)
  {
    if q > 0 {
      var scan := (q - 1) * m;
      ScannedEachCycle(starts, period, m, jitter, grace, q - 1);
      CadenceSoFar(starts, period, m, jitter, grace, scan, m - 1);
      DueAfterMPasses(starts, period, m, jitter, grace, scan, m);
      assert scan + m == q * m;
    }
  }

  /** A search whose interval is `m` cron periods is scanned by exactly every
      `m`-th pass, for ever and without drift, whatever the jitter: by pass
      `q * m + r`, for `r < m`, if and only if `r` is zero. */
  lemma EveryMthPass(starts: nat -> real, period: nat, m: nat, jitter: real, grace: real, q: nat, r: nat)
    requires Steady(starts, period, jitter) && Tolerates(period, m, jitter, grace) && r < m
    ensures ScannedAt(starts, m * period, grace, q * m + r) <==> r == 0
  {
    ScannedEachCycle(starts, period, m, jitter, grace, q);
    CadenceSoFar(starts, period, m, jitter, grace, q * m, r);
  }

  /** A schedule that is exact but for a shift of each pass. */
  function Shifted(period: nat, shift: nat -> real): nat -> real {
    (k: nat) => Periods(k, period) + shift(k)
  }

  lemma ShiftedGap(period: nat, shift: nat -> real, low: real, jitter: real, i: nat, k: nat)
    requires low <= shift(i) <= low + jitter && low <= shift(i + k) <= low + jitter
    ensures Periods(k, period) - jitter <= Shifted(period, shift)(i + k) - Shifted(period, shift)(i) <= Periods(k, period) + jitter
  {
    PeriodsAdd(i, k, period);
    hide Periods;
  }

  lemma ShiftedIsSteady(period: nat, shift: nat -> real, low: real, jitter: real)
    requires forall k: nat :: low <= shift(k) <= low + jitter
    ensures Steady(Shifted(period, shift), period, jitter)
  {
    hide Shifted, Periods;
    forall i: nat, k: nat
      ensures Periods(k, period) - jitter <= Shifted(period, shift)(i + k) - Shifted(period, shift)(i) <= Periods(k, period) + jitter
    {
      ShiftedGap(period, shift, low, jitter, i, k);
    }
  }

  lemma PeriodsAdd(i: nat, k: nat, period: nat)
    ensures Periods(i + k, period) == Periods(i, period) + Periods(k, period)
  {
    assert (i + k) * period == i * period + k * period;
  }

  /** The search is scanned by exactly every `m`-th pass. */
  ghost predicate KeepsCadence(starts: nat -> real, period: nat, m: nat, grace: real)
    requires m > 0
  {
    forall n: nat :: ScannedAt(starts, m * period, grace, n) <==> n % m == 0
  }

  /** On a schedule that keeps the cadence, the last stamp before pass `n <= m`
      is that of pass 0. */
  lemma {:induction false} FirstStampStands(starts: nat -> real, period: nat, m: nat, grace: real, n: nat)
    requires 0 < n <= m && KeepsCadence(starts, period, m, grace)
    ensures LastBefore(starts, m * period, grace, n) == Some(starts(0))
  {
    assert ScannedAt(starts, m * period, grace, n - 1) <==> (n - 1) % m == 0;
    if n > 1 {
      FirstStampStands(starts, period, m, grace, n - 1);
    }
  }

  /** Hence a search last stamped by pass 0 is due by pass `m` and not before. */
  lemma DueOnCadence(starts: nat -> real, period: nat, m: nat, grace: real, n: nat)
    requires 0 < n <= m && KeepsCadence(starts, period, m, grace)
    ensures Due(Search(true, m * period, Some(starts(0))), starts(n), grace) <==> n == m
  {
    hide Due;
    FirstStampStands(starts, period, m, grace, n);
    assert ScannedAt(starts, m * period, grace, n) <==> n % m == 0;
    assert n < m ==> n % m == n;
  }

  lemma DueOfShifted(period: nat, m: nat, shift: nat -> real, grace: real, n: nat)
    requires shift(0) == 0.0
    ensures var starts := Shifted(period, shift);
            Due(Search(true, m * period, Some(starts(0))), starts(n), grace)
            <==> Wait(grace, m * period) <= Periods(n, period) + shift(n)
  {
    hide Wait;
    assert Periods(0, period) == 0.0;
  }

  /** With more jitter than grace, the `m`-th pass may start so early that a
      search scanned by pass 0 is not due: some steady schedule loses the cadence. */
  lemma JitterBeyondGraceSkips(period: nat, m: nat, jitter: real, grace: real) returns (starts: nat -> real)
    requires m > 0 && jitter > Grace(grace, m * period)
    ensures Steady(starts, period, jitter) && !KeepsCadence(starts, period, m, grace)
  {
    hide Steady, KeepsCadence, Due, Shifted;
    var shift := (k: nat) => if k < m then 0.0 else -jitter;
    starts := Shifted(period, shift);
    ShiftedIsSteady(period, shift, -jitter, jitter);
    DueOfShifted(period, m, shift, grace, m);
    if KeepsCadence(starts, period, m, grace) {
      DueOnCadence(starts, period, m, grace, m);
    }
  }

  /** And with one pass too few within reach of grace and jitter, pass `m - 1`
      may start so late that it scans early. */
  lemma JitterBeyondPeriodScansEarly(period: nat, m: nat, jitter: real, grace: real) returns (starts: nat -> real)
    requires m > 1 && jitter >= 0.0 && Periods(m - 1, period) + jitter >= Wait(grace, m * period)
    ensures Steady(starts, period, jitter) && !KeepsCadence(starts, period, m, grace)
  {
    hide Steady, KeepsCadence, Due, Shifted, Periods, Wait;
    var shift := (k: nat) => if k + 1 < m then 0.0 else jitter;
    starts := Shifted(period, shift);
    ShiftedIsSteady(period, shift, 0.0, jitter);
    DueOfShifted(period, m, shift, grace, m - 1);
    if KeepsCadence(starts, period, m, grace) {
      DueOnCadence(starts, period, m, grace, m - 1);
    }
  }

  /** The tolerance is exact: every steady schedule keeps the cadence of a search
      of `m` periods if and only if the grace tolerates the jitter. */
  lemma CadenceIff(period: nat, m: nat, jitter: real, grace: real)
    requires m > 0 && jitter >= 0.0
    ensures Tolerates(period, m, jitter, grace)
            <==> forall starts: nat -> real | Steady(starts, period, jitter) :: KeepsCadence(starts, period, m, grace)
  {
    if Tolerates(period, m, jitter, grace) {
      forall starts: nat -> real, n: nat | Steady(starts, period, jitter)
        ensures ScannedAt(starts, m * period, grace, n) <==> n % m == 0
      {
        assert n == n / m * m + n % m;
        EveryMthPass(starts, period, m, jitter, grace, n / m, n % m);
      }
    } else if jitter > Grace(grace, m * period) {
      var starts := JitterBeyondGraceSkips(period, m, jitter, grace);
    } else {
      var starts := JitterBeyondPeriodScansEarly(period, m, jitter, grace);
    }
  }
}
