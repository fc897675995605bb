/**
  One collection worker: its loop, its sleep, the status it publishes and the rows it leaves behind.
  What the database and the driver answer in a cycle, and how long that takes, is the cycle's input.
 */
module WorkerLoop {
  import opened Models
  import opened StatusStore
  import opened Retention

  const MAX_ROWS_PER_DEVICE: nat := 5000
  const CLEANUP_INTERVAL_MS: nat := 60000
  const MAX_FAILURES: nat := 5
  const SLEEP_STEP_MS: nat := 100

  /**
    Failed: some stage before the insert threw. Answered: records reached insertResources, which a storage
    fault may roll back; after a good insert the close stage may still throw.
   */
  datatype Outcome =
    | Failed(stage: string, message: string)
    | Answered(records: seq<ResourceRecord>, faultAt: nat, closeFails: bool, message: string,
               machineConnected: bool, successTime: real, cleanupFails: bool)

  /** busyMs: from the start of the cycle to its clock reading; lagMs: from there on, beyond the sleep. */
  datatype Cycle = Cycle(outcome: Outcome, sampleIntervalMs: int, busyMs: nat, lagMs: nat)

  /** The cycle's rows are in the table. */
  predicate Stores(o: Outcome) {
    o.Answered? && o.faultAt > |o.records|
  }

  predicate Succeeds(o: Outcome) {
    Stores(o) && !o.closeFails
  }

  function FailureText(o: Outcome): string {
    (if o.Failed? then o.stage else if Stores(o) then "close" else "processResponse") + " failed: " + o.message
  }

  function Interval(sampleIntervalMs: int): nat {
    if sampleIntervalMs < 100 then 100 else sampleIntervalMs
  }

  // ----- the published status, read off the history -----

  function TrailingFailures(ran: seq<Cycle>): nat {
    if ran == [] || Succeeds(ran[|ran| - 1].outcome) then 0 else 1 + TrailingFailures(ran[..|ran| - 1])
  }

  function LastSuccessTime(ran: seq<Cycle>): real {
    if ran == [] then 0.0
    else
      var last := ran[|ran| - 1].outcome;
      if Succeeds(last) then last.successTime else LastSuccessTime(ran[..|ran| - 1])
  }

  function Published(name: string, ran: seq<Cycle>): DeviceStatus
    requires ran != []
  {
    var last := ran[|ran| - 1].outcome;
    DeviceStatus(name, Succeeds(last), Succeeds(last) && last.machineConnected, TrailingFailures(ran),
                 LastSuccessTime(ran), if Succeeds(last) then "" else FailureText(last))
  }

  lemma {:induction false} TrailingFailuresMeaning(ran: seq<Cycle>, k: nat)
    requires k <= |ran|
    ensures k <= TrailingFailures(ran) <==> forall i | |ran| - k <= i < |ran| :: !Succeeds(ran[i].outcome)
  {
    if k == 0 {
    } else {
      TrailingFailuresMeaning(ran[..|ran| - 1], k - 1);
    }
  }

  /** It is the time of the last good cycle, and 0 before the first one. */
  lemma {:induction false} LastSuccessTimeMeaning(ran: seq<Cycle>)
    ensures (forall i | 0 <= i < |ran| :: !Succeeds(ran[i].outcome)) ==> LastSuccessTime(ran) == 0.0
    ensures forall i | 0 <= i < |ran| && Succeeds(ran[i].outcome) ::
              (forall j | i < j < |ran| :: !Succeeds(ran[j].outcome)) ==>
                LastSuccessTime(ran) == ran[i].outcome.successTime
  {
    if ran == [] {
    } else {
      LastSuccessTimeMeaning(ran[..|ran| - 1]);
    }
  }

  lemma ErrorExactlyWhenFailing(name: string, ran: seq<Cycle>)
    requires ran != []
    ensures Published(name, ran).error == "" <==> Published(name, ran).failCount == 0
    ensures Published(name, ran).connected <==> Published(name, ran).failCount == 0
  {
    var last := ran[|ran| - 1].outcome;
    assert |FailureText(last)| >= |" failed: "|;
  }

  // ----- the table as this worker and the rest of the service leave it -----

  datatype Keeper = Keeper(table: Table, lastCleanup: int, clock: int)

  datatype Event =
    | Restart(at: int)
    | Own(cycle: Cycle)
    | Others(operation: Operation)

  function Collected(k: Keeper, name: string, cycle: Cycle): Keeper {
    var now := k.clock + cycle.busyMs;
    var o := cycle.outcome;
    if !Stores(o) then k
    else
      var filled := Inserted(k.table, o.records);
      if Succeeds(o) && now - k.lastCleanup >= CLEANUP_INTERVAL_MS && !o.cleanupFails
      then k.(table := Perform(filled, CleanDevice(name, MAX_ROWS_PER_DEVICE)), lastCleanup := now)
      else k.(table := filled)
  }

  function Happened(k: Keeper, name: string, e: Event): Keeper {
    match e
    case Restart(at) => k.(lastCleanup := at - CLEANUP_INTERVAL_MS, clock := at)
    case Others(operation) => k.(table := Perform(k.table, operation))
    case Own(cycle) =>
      Collected(k, name, cycle).(clock := k.clock + cycle.busyMs + Interval(cycle.sampleIntervalMs) + cycle.lagMs)
  }

  function History(k: Keeper, name: string, events: seq<Event>): Keeper {
    if events == [] then k else Happened(History(k, name, events[..|events| - 1]), name, events[|events| - 1])
  }

  function OwnEvents(ran: seq<Cycle>): seq<Event> {
    seq(|ran|, i requires 0 <= i < |ran| => Own(ran[i]))
  }

  // ----- the loops -----

  /** The stop flag as its polls see it: up from the poll number `polls` on. */
  class StopSignal {
    var polls: nat

    constructor (polls: nat)
      ensures this.polls == polls
    {
      this.polls := polls;
    }

    method Load() returns (up: bool)
      modifies this
      ensures up <==> old(polls) == 0
      ensures polls == if old(polls) == 0 then 0 else old(polls) - 1
    {
      up := polls == 0;
      if polls > 0 { polls := polls - 1; }
    }
  }

  /** Sleeps exactly the interval unless stopped, and notices a stop within one 100 ms step. */
  method SleepUntilNextCycle(sampleIntervalMs: int, signal: StopSignal) returns (slept: nat)
    modifies signal
    ensures var interval := if sampleIntervalMs < 100 then 100 else sampleIntervalMs;
            && slept == (if 100 * old(signal.polls) < interval then 100 * old(signal.polls) else interval)
            && (slept < interval ==> signal.polls == 0)
    ensures slept == Interval(sampleIntervalMs) || signal.polls == 0
    ensures signal.polls <= old(signal.polls) && (old(signal.polls) > 0 ==> signal.polls < old(signal.polls))
  {
    var interval := Interval(sampleIntervalMs);
    slept := 0;
    ghost var steps := 0;
    var up := signal.Load();
    while !up && slept < interval
      invariant slept == if SLEEP_STEP_MS * steps < interval then SLEEP_STEP_MS * steps else interval
      invariant SLEEP_STEP_MS * steps < interval + SLEEP_STEP_MS
      invariant up ==> steps == old(signal.polls) && signal.polls == 0
      invariant !up ==> signal.polls + steps + 1 == old(signal.polls)
      decreases interval - slept
    {
      var remaining := interval - slept;
      var currentStep := if remaining < SLEEP_STEP_MS then remaining else SLEEP_STEP_MS;
      slept := slept + currentStep;
      steps := steps + 1;
      up := signal.Load();
    }
  }

  /** The part of a cycle that touches the table: insert the records, and clean up when a minute has passed. */
  method Collect(resources: ResourceStore, name: string, cycle: Cycle, now: int, lastCleanup: int, ghost k: Keeper)
    returns (succeeded: bool, cleanedAt: int)
    requires resources.Valid()
    requires k.table == resources.Contents() && k.lastCleanup == lastCleanup && now == k.clock + cycle.busyMs
    modifies resources
    ensures resources.Valid() && succeeded == Succeeds(cycle.outcome)
    ensures resources.Contents() == Collected(k, name, cycle).table
    ensures cleanedAt == Collected(k, name, cycle).lastCleanup
    ensures var o := cycle.outcome;
            var stored := o.Answered? && o.faultAt > |o.records|;
            var cleans := stored && !o.closeFails && now - lastCleanup >= 60000 && !o.cleanupFails;
            && (succeeded <==> stored && !o.closeFails)
            && cleanedAt == (if cleans then now else lastCleanup)
            && (!stored ==> resources.Contents() == old(resources.Contents()))
            && (stored && !cleans ==> resources.Contents() == Inserted(old(resources.Contents()), o.records))
            && (cleans && name != "" ==>
                  KeepsNewest(Inserted(old(resources.Contents()), o.records).rows, resources.rows, name, 5000))
  {
    succeeded, cleanedAt := false, lastCleanup;
    if cycle.outcome.Answered? {
      var stored := resources.InsertResources(cycle.outcome.records, cycle.outcome.faultAt);
      succeeded := stored && !cycle.outcome.closeFails;
      if succeeded && now - lastCleanup >= CLEANUP_INTERVAL_MS {
        var cleaned := resources.CleanupResourcesForDevice(name, MAX_ROWS_PER_DEVICE, cycle.outcome.cleanupFails);
        if cleaned { cleanedAt := now; }
      }
    }
  }

  function Report(status: DeviceStatus, failCount: nat, o: Outcome): DeviceStatus {
    DeviceStatus(status.deviceName, Succeeds(o), Succeeds(o) && o.machineConnected, failCount,
                 if Succeeds(o) then o.successTime else status.lastSuccessTime,
                 if Succeeds(o) then "" else FailureText(o))
  }

  /** One pass through the body of the loop, up to the sleep. */
  method RunCycle(store: DeviceStatusStore, resources: ResourceStore, name: string, cycle: Cycle,
                  status: DeviceStatus, failCount: nat, now: int, lastCleanup: int, ghost k: Keeper)
    returns (newStatus: DeviceStatus, newFailCount: nat, cleanedAt: int)
    requires resources.Valid()
    requires k.table == resources.Contents() && k.lastCleanup == lastCleanup && now == k.clock + cycle.busyMs
    modifies store, resources
    ensures resources.Valid()
    ensures newFailCount == if Succeeds(cycle.outcome) then 0 else failCount + 1
    ensures newStatus == Report(status, newFailCount, cycle.outcome)
    ensures store.View() == WithStatus(old(store.View()), newStatus)
    ensures store.statuses == old(store.statuses)[status.deviceName := newStatus]
    ensures var o := cycle.outcome;
            var good := o.Answered? && o.faultAt > |o.records| && !o.closeFails;
            && newStatus.deviceName == status.deviceName && newStatus.failCount == newFailCount
            && newFailCount == (if good then 0 else failCount + 1)
            && newStatus.connected == good && newStatus.machineConnected == (good && o.machineConnected)
            && newStatus.lastSuccessTime == (if good then o.successTime else status.lastSuccessTime)
            && (good ==> newStatus.error == "")
            && (o.Failed? ==> newStatus.error == o.stage + " failed: " + o.message)
            && (o.Answered? && o.faultAt <= |o.records| ==> newStatus.error == "processResponse failed: " + o.message)
            && (o.Answered? && o.faultAt > |o.records| && o.closeFails ==> newStatus.error == "close failed: " + o.message)
    ensures resources.Contents() == Collected(k, name, cycle).table
    ensures cleanedAt == Collected(k, name, cycle).lastCleanup
  {
    var succeeded;
    succeeded, cleanedAt := Collect(resources, name, cycle, now, lastCleanup, k);
    if succeeded {
      newFailCount := 0;
      newStatus := status.(connected := true, machineConnected := cycle.outcome.machineConnected, failCount := 0,
                           lastSuccessTime := cycle.outcome.successTime, error := "");
    } else {
      newFailCount := failCount + 1;
      newStatus := status.(connected := false, machineConnected := false, failCount := newFailCount,
                           error := FailureText(cycle.outcome));
    }
    store.SetLatestStatus(newStatus);
  }

  /** The table and clock of a worker started over t at startedAt, after it ran these cycles. */
  function Kept(t: Table, name: string, startedAt: int, ran: seq<Cycle>): Keeper {
    if ran == [] then Keeper(t, startedAt - CLEANUP_INTERVAL_MS, startedAt)
    else Happened(Kept(t, name, startedAt, ran[..|ran| - 1]), name, Own(ran[|ran| - 1]))
  }

  /** Nowhere in the history do five cycles in a row fail. */
  ghost predicate FewFailures(ran: seq<Cycle>)
  {
    TrailingFailures(ran) < MAX_FAILURES && (ran != [] ==> FewFailures(ran[..|ran| - 1]))
  }

  function ViewAfter(v: StoreView, name: string, ran: seq<Cycle>): StoreView {
    if ran == [] then v else WithStatus(v, Published(name, ran))
  }

  /** The entry of the device is the status of its last cycle; no other entry has been touched. */
  lemma ViewAfterEntries(v: StoreView, name: string, ran: seq<Cycle>)
    ensures forall n | n != name :: n in ViewAfter(v, name, ran).statuses <==> n in v.statuses
    ensures forall n | n != name && n in v.statuses :: ViewAfter(v, name, ran).statuses[n] == v.statuses[n]
    ensures ran == [] ==> ViewAfter(v, name, ran).statuses == v.statuses
    ensures ran != [] ==>
              var last := ran[|ran| - 1].outcome;
              && name in ViewAfter(v, name, ran).statuses
              && var status := ViewAfter(v, name, ran).statuses[name];
                 && status.deviceName == name && status.failCount == TrailingFailures(ran)
                 && status.connected == Succeeds(last)
                 && status.machineConnected == (Succeeds(last) && last.machineConnected)
                 && status.lastSuccessTime == LastSuccessTime(ran)
                 && status.error == (if Succeeds(last) then "" else FailureText(last))
  {
  }

  lemma NoCycles(v: StoreView, t: Table, name: string, startedAt: int)
    ensures TrailingFailures([]) == 0 && LastSuccessTime([]) == 0.0 && FewFailures([]) && ViewAfter(v, name, []) == v
    ensures Kept(t, name, startedAt, []) == Keeper(t, startedAt - CLEANUP_INTERVAL_MS, startedAt)
  {
  }

  /** What the next cycle adds to everything that is read off the history. */
  lemma MoreCycles(v: StoreView, t: Table, name: string, startedAt: int, cycles: seq<Cycle>, n: nat)
    requires n < |cycles|
    ensures var ran, more, o := cycles[..n], cycles[..n + 1], cycles[n].outcome;
            && TrailingFailures(more) == (if Succeeds(o) then 0 else TrailingFailures(ran) + 1)
            && LastSuccessTime(more) == (if Succeeds(o) then o.successTime else LastSuccessTime(ran))
            && (FewFailures(more) <==> FewFailures(ran) && TrailingFailures(more) < MAX_FAILURES)
            && Kept(t, name, startedAt, more) == Happened(Kept(t, name, startedAt, ran), name, Own(cycles[n]))
            && WithStatus(ViewAfter(v, name, ran), Published(name, more)) == ViewAfter(v, name, more)
            && more != []
  {
    var ran, more := cycles[..n], cycles[..n + 1];
    assert more[..n] == ran;
    if ran != [] {
      var older, newer := Published(name, ran), Published(name, more);
      assert v.statuses[name := older][name := newer] == v.statuses[name := newer];
    }
  }

  method RunDeviceTask(store: DeviceStatusStore, resources: ResourceStore, name: string,
                       cycles: seq<Cycle>, signal: StopSignal, startedAt: int)
    returns (count: nat)
    requires resources.Valid() && |cycles| >= signal.polls
    modifies store, resources, signal
    ensures resources.Valid() && count <= |cycles|
    ensures var failures := TrailingFailures(cycles[..count]);
            failures == 5 || (failures < 5 && signal.polls == 0)
    ensures count > 0 ==> FewFailures(cycles[..count - 1])
    ensures old(signal.polls) == 0 <==> count == 0
    ensures count == 0 ==> store.statuses == old(store.statuses)
    ensures count > 0 ==>
              var last := cycles[count - 1].outcome;
              && name in store.statuses
              && var status := store.statuses[name];
                 && status.deviceName == name && status.failCount == TrailingFailures(cycles[..count])
                 && status.connected == Succeeds(last)
                 && status.machineConnected == (Succeeds(last) && last.machineConnected)
                 && status.lastSuccessTime == LastSuccessTime(cycles[..count])
                 && status.error == (if Succeeds(last) then "" else FailureText(last))
    ensures forall n | n != name :: n in store.statuses <==> n in old(store.statuses)
    ensures forall n | n != name && n in old(store.statuses) :: store.statuses[n] == old(store.statuses)[n]
    ensures name !in store.activeDevices && name !in store.stopFlags
    ensures store.View() == Forgotten(ViewAfter(old(store.View()), name, cycles[..count]), name)
    ensures resources.Contents() == Kept(old(resources.Contents()), name, startedAt, cycles[..count]).table
  {
    hide Kept, ViewAfter, TrailingFailures, FewFailures, LastSuccessTime, Collected;
    hide Inserted, FailureText, RowsOf, KeepsNewest;
    ghost var before, table := store.View(), resources.Contents();
    NoCycles(before, table, name, startedAt);
    ghost var k := Kept(table, name, startedAt, []);
    var status := DeviceStatus(name, false, false, 0, 0.0, "");
    var failCount := 0;
    var lastCleanup, clock := startedAt - CLEANUP_INTERVAL_MS, startedAt;
    count := 0;
    var stopped := signal.Load();
    while !stopped
      invariant resources.Valid() && resources.Contents() == k.table
      invariant count <= |cycles| && (!stopped ==> count + signal.polls < old(signal.polls))
      invariant k == Kept(table, name, startedAt, cycles[..count])
      invariant lastCleanup == k.lastCleanup && (!stopped ==> clock == k.clock)
      invariant FewFailures(cycles[..count]) && (count > 0 ==> FewFailures(cycles[..count - 1]))
      invariant failCount == TrailingFailures(cycles[..count]) < MAX_FAILURES
      invariant status.deviceName == name && status.lastSuccessTime == LastSuccessTime(cycles[..count])
      invariant store.View() == ViewAfter(before, name, cycles[..count])
      invariant stopped ==> signal.polls == 0
      invariant old(signal.polls) == 0 <==> stopped && count == 0
      decreases if stopped then 0 else signal.polls + 1
    {
      var cycle := cycles[count];
      MoreCycles(before, table, name, startedAt, cycles, count);
      clock := clock + cycle.busyMs;
      status, failCount, lastCleanup :=
        RunCycle(store, resources, name, cycle, status, failCount, clock, lastCleanup, k);
      k := Happened(k, name, Own(cycle));
      count := count + 1;
      if failCount >= MAX_FAILURES {
        break;
      }
      var slept := SleepUntilNextCycle(cycle.sampleIntervalMs, signal);
      clock := clock + slept + cycle.lagMs;
      stopped := signal.Load();
    }
    ViewAfterEntries(before, name, cycles[..count]);
    store.MarkStopped(name);
  }

  ghost predicate SuccessWithinFive(ran: seq<Cycle>, i: nat) {
    exists j :: i <= j < i + MAX_FAILURES && j < |ran| && Succeeds(ran[j].outcome)
  }

  lemma {:induction false} TrailingAtMost(ran: seq<Cycle>)
    ensures TrailingFailures(ran) <= |ran|
  {
    if ran == [] {
    } else {
      TrailingAtMost(ran[..|ran| - 1]);
    }
  }

  /** Such a history has a success among any five neighbouring cycles. */
  lemma {:induction false} FewFailuresMeaning(ran: seq<Cycle>)
    ensures FewFailures(ran) <==> forall i: nat | i + MAX_FAILURES <= |ran| :: SuccessWithinFive(ran, i)
  {
    if ran == [] {
    } else {
      var n := |ran| - 1;
      FewFailuresMeaning(ran[..n]);
      forall i: nat | i + MAX_FAILURES <= n
        ensures SuccessWithinFive(ran[..n], i) <==> SuccessWithinFive(ran, i)
      {
        if SuccessWithinFive(ran, i) {
          var j :| i <= j < i + MAX_FAILURES && j < |ran| && Succeeds(ran[j].outcome);
          assert ran[..n][j] == ran[j];
        }
      }
      TrailingAtMost(ran);
      if |ran| >= MAX_FAILURES {
        TrailingFailuresMeaning(ran, MAX_FAILURES);
        assert SuccessWithinFive(ran, |ran| - MAX_FAILURES) <==> TrailingFailures(ran) < MAX_FAILURES;
      }
    }
  }

  lemma {:induction false} KeptIsHistory(k: Keeper, name: string, at: int, ran: seq<Cycle>)
    ensures Kept(k.table, name, at, ran) == History(k, name, [Restart(at)] + OwnEvents(ran))
  {
    var events := [Restart(at)] + OwnEvents(ran);
    if ran == [] {
      assert events == [Restart(at)] && events[..0] == [];
    } else {
      KeptIsHistory(k, name, at, ran[..|ran| - 1]);
      assert events[..|events| - 1] == [Restart(at)] + OwnEvents(ran[..|ran| - 1]);
    }
  }

  // ----- how large a device's history can get -----

  function RowCount(k: Keeper, name: string): nat {
    |RowsOf(k.table.rows, name)|
  }

  /** A batch has at most p records, and nobody else inserts under this name. */
  predicate Orderly(e: Event, name: string, p: nat) {
    match e
    case Restart(_) => true
    case Own(cycle) => cycle.outcome.Answered? ==> |cycle.outcome.records| <= p
    case Others(op) => op.Insert? ==> forall r | r in op.records :: r.deviceName != name
  }

  /** A cycle that stores its rows and then misses its chance to clean up. */
  predicate Skips(e: Event) {
    e.Own? && Stores(e.cycle.outcome) && (e.cycle.outcome.closeFails || e.cycle.outcome.cleanupFails)
  }

  function SkipCount(events: seq<Event>): nat {
    if events == [] then 0
    else SkipCount(events[..|events| - 1]) + if Skips(events[|events| - 1]) then 1 else 0
  }

  /** The cleanup limit and n batches of at most p rows. */
  function Bound(n: nat, p: nat): nat {
    MAX_ROWS_PER_DEVICE + n * p
  }

  lemma BoundGrows(n: nat, p: nat)
    ensures Bound(n + 1, p) == Bound(n, p) + p
  {
  }

  lemma BoundOrder(m: nat, n: nat, p: nat)
    requires m <= n
    ensures MAX_ROWS_PER_DEVICE <= Bound(m, p) <= Bound(n, p)
  {
  }

  /** m ordinary batches since the last cleanup, at least 100 ms apart. */
  predicate WithinBatches(k: Keeper, name: string, p: nat, m: nat, skips: nat) {
    100 * (m + 1) <= k.clock - k.lastCleanup && RowCount(k, name) <= Bound(m + skips, p)
  }

  /** skips batches were stored without a cleanup being possible; the others keep the table within its bound. */
  ghost predicate Budget(k: Keeper, name: string, p: nat, skips: nat) {
    && ValidTable(k.table.rows, k.table.nextId)
    && RowCount(k, name) <= Bound(599 + skips, p)
    && (k.clock - k.lastCleanup >= CLEANUP_INTERVAL_MS || exists m: nat :: WithinBatches(k, name, p, m, skips))
  }

  /** A batch that misses its cleanup uses up one skip. */
  lemma SkipKeepsBudget(k: Keeper, name: string, p: nat, skips: nat, cycle: Cycle)
    requires Budget(k, name, p, skips) && Orderly(Own(cycle), name, p) && Skips(Own(cycle))
    ensures Budget(Happened(k, name, Own(cycle)), name, p, skips + 1)
  {
    hide Inserted, RowsOf, Bound, ValidTable;
    var k' := Happened(k, name, Own(cycle));
    assert k'.table == Inserted(k.table, cycle.outcome.records) && k'.lastCleanup == k.lastCleanup;
    InsertCount(k.table, cycle.outcome.records, name);
    PerformKeepsValid(k.table, Insert(cycle.outcome.records));
    BoundGrows(599 + skips, p);
    if k.clock - k.lastCleanup < CLEANUP_INTERVAL_MS {
      var m: nat :| WithinBatches(k, name, p, m, skips);
      BoundGrows(m + skips, p);
      assert WithinBatches(k', name, p, m, skips + 1);
    }
  }

  /** An ordinary batch when a minute has passed: it is followed by its cleanup. */
  lemma CleanedKeepsBudget(k: Keeper, name: string, p: nat, skips: nat, cycle: Cycle)
    requires Budget(k, name, p, skips) && name != "" && Succeeds(cycle.outcome) && !cycle.outcome.cleanupFails
    requires k.clock + cycle.busyMs - k.lastCleanup >= CLEANUP_INTERVAL_MS
    ensures Budget(Happened(k, name, Own(cycle)), name, p, skips)
  {
    hide Inserted, RowsOf, Bound, ValidTable, CleanedDevice;
    var k' := Happened(k, name, Own(cycle));
    var filled := Inserted(k.table, cycle.outcome.records);
    PerformKeepsValid(k.table, Insert(cycle.outcome.records));
    CleanupCount(filled, CleanDevice(name, MAX_ROWS_PER_DEVICE), name);
    PerformKeepsValid(filled, CleanDevice(name, MAX_ROWS_PER_DEVICE));
    BoundOrder(skips, 599 + skips, p);
    assert WithinBatches(k', name, p, 0, skips);
  }

  /** An ordinary batch within the minute. */
  lemma BatchKeepsBudget(k: Keeper, name: string, p: nat, skips: nat, cycle: Cycle)
    requires Budget(k, name, p, skips) && Orderly(Own(cycle), name, p) && Succeeds(cycle.outcome)
    requires k.clock + cycle.busyMs - k.lastCleanup < CLEANUP_INTERVAL_MS
    ensures Budget(Happened(k, name, Own(cycle)), name, p, skips)
  {
    hide Inserted, RowsOf, Bound, ValidTable;
    var k' := Happened(k, name, Own(cycle));
    InsertCount(k.table, cycle.outcome.records, name);
    PerformKeepsValid(k.table, Insert(cycle.outcome.records));
    var m: nat :| WithinBatches(k, name, p, m, skips);
    BoundGrows(m + skips, p);
    BoundOrder(m + 1 + skips, 599 + skips, p);
    assert WithinBatches(k', name, p, m + 1, skips);
  }

  /** What other parts of the service do to the table. */
  lemma OthersKeepBudget(k: Keeper, name: string, p: nat, skips: nat, op: Operation)
    requires Budget(k, name, p, skips) && Orderly(Others(op), name, p)
    ensures Budget(Happened(k, name, Others(op)), name, p, skips)
  {
    if op.Insert? {
      InsertCount(k.table, op.records, name);
    } else {
      CleanupCount(k.table, op, name);
    }
    PerformKeepsValid(k.table, op);
    if k.clock - k.lastCleanup < CLEANUP_INTERVAL_MS {
      var m: nat :| WithinBatches(k, name, p, m, skips);
      assert WithinBatches(Happened(k, name, Others(op)), name, p, m, skips);
    }
  }

  lemma IdleKeepsBudget(k: Keeper, name: string, p: nat, skips: nat, cycle: Cycle)
    requires Budget(k, name, p, skips) && !Stores(cycle.outcome)
    ensures Budget(Happened(k, name, Own(cycle)), name, p, skips)
  {
    if k.clock - k.lastCleanup < CLEANUP_INTERVAL_MS {
      var m: nat :| WithinBatches(k, name, p, m, skips);
      assert WithinBatches(Happened(k, name, Own(cycle)), name, p, m, skips);
    }
  }

  lemma EventKeepsBudget(k: Keeper, name: string, p: nat, skips: nat, e: Event)
    requires Budget(k, name, p, skips) && Orderly(e, name, p) && name != ""
    ensures Budget(Happened(k, name, e), name, p, skips + if Skips(e) then 1 else 0)
  {
    match e {
      case Restart(_) =>
      case Others(op) => OthersKeepBudget(k, name, p, skips, op);
      case Own(cycle) =>
        if !Stores(cycle.outcome) {
          IdleKeepsBudget(k, name, p, skips, cycle);
        } else if Skips(e) {
          SkipKeepsBudget(k, name, p, skips, cycle);
        } else if k.clock + cycle.busyMs - k.lastCleanup >= CLEANUP_INTERVAL_MS {
          CleanedKeepsBudget(k, name, p, skips, cycle);
        } else {
          BatchKeepsBudget(k, name, p, skips, cycle);
        }
    }
  }

  lemma RestartBudget(k: Keeper, name: string, p: nat, e: Event)
    requires ValidTable(k.table.rows, k.table.nextId) && RowCount(k, name) <= Bound(599, p) && e.Restart?
    ensures Budget(Happened(k, name, e), name, p, 0)
  {
  }

  lemma {:induction false} BudgetOfHistory(k: Keeper, name: string, p: nat, events: seq<Event>)
    requires ValidTable(k.table.rows, k.table.nextId) && RowCount(k, name) <= Bound(599, p)
    requires name != "" && events != [] && events[0].Restart?
    requires forall i | 0 <= i < |events| :: Orderly(events[i], name, p)
    ensures Budget(History(k, name, events), name, p, SkipCount(events))
    decreases |events|
  {
    hide Budget, Bound, Orderly, Happened;
    var n := |events| - 1;
    if n == 0 {
      RestartBudget(k, name, p, events[0]);
      assert events[..0] == [];
    } else {
      BudgetOfHistory(k, name, p, events[..n]);
      EventKeepsBudget(History(k, name, events[..n]), name, p, SkipCount(events[..n]), events[n]);
    }
  }

  /**
    Across stops and restarts, and whatever the other devices do, a device that starts from at most
    5000 + 599p rows is never seen with more, except between a batch and its cleanup, and then with at
    most 5000 + 600p. Each cycle whose close or cleanup failed can add one batch to both bounds.
   */
  lemma RowsStayBounded(k: Keeper, name: string, p: nat, events: seq<Event>, records: seq<ResourceRecord>)
    requires ValidTable(k.table.rows, k.table.nextId) && RowCount(k, name) <= 5000 + 599 * p
    requires name != "" && events != [] && events[0].Restart?
    requires forall i | 0 <= i < |events| :: Orderly(events[i], name, p)
    ensures var h := History(k, name, events);
            && RowCount(h, name) <= 5000 + (599 + SkipCount(events)) * p
            && (|records| <= p ==>
                  RowCount(h.(table := Inserted(h.table, records)), name)
                  <= 5000 + (600 + SkipCount(events)) * p)
  {
    hide History, SkipCount, Inserted, RowsOf, ValidTable, Orderly;
    BudgetOfHistory(k, name, p, events);
    BoundGrows(599 + SkipCount(events), p);
    InsertCount(History(k, name, events).table, records, name);
  }

  // ----- the workers' cleanups never show -----

  /** The batches of a history that reached the table, by this worker and by others. */
  function Batches(events: seq<Event>): seq<seq<ResourceRecord>> {
    if events == [] then []
    else
      var rest, last := Batches(events[..|events| - 1]), events[|events| - 1];
      if last.Own? && Stores(last.cycle.outcome) then rest + [last.cycle.outcome.records]
      else if last.Others? && last.operation.Insert? then rest + [last.operation.records]
      else rest
  }

  function Filled(t: Table, batches: seq<seq<ResourceRecord>>): Table {
    if batches == [] then t else Inserted(Filled(t, batches[..|batches| - 1]), batches[|batches| - 1])
  }

  lemma EventKeepsSameTop(k: Keeper, h: Table, name: string, e: Event)
    requires SameTop(k.table, h) && (e.Others? ==> LimitAllows(e.operation))
    ensures SameTop(Happened(k, name, e).table, Filled(h, Batches([e])))
  {
    hide SameTop, Inserted;
    assert [e][..0] == [];
    match e {
      case Restart(_) =>
      case Others(op) =>
        if op.Insert? { InsertKeepsSameTop(k.table, h, op.records); } else { CleanupKeepsSameTop(k.table, h, op); }
      case Own(cycle) =>
        if Stores(cycle.outcome) {
          InsertKeepsSameTop(k.table, h, cycle.outcome.records);
          var filled := Inserted(k.table, cycle.outcome.records);
          CleanupKeepsSameTop(filled, Inserted(h, cycle.outcome.records), CleanDevice(name, MAX_ROWS_PER_DEVICE));
        }
    }
  }

  lemma SameTopAtFirst(t: Table)
    requires ValidTable(t.rows, t.nextId)
    ensures SameTop(t, t)
  {
  }

  lemma {:induction false} HistoryKeepsSameTop(k: Keeper, name: string, events: seq<Event>)
    requires ValidTable(k.table.rows, k.table.nextId)
    requires forall e | e in events && e.Others? :: LimitAllows(e.operation)
    ensures SameTop(History(k, name, events).table, Filled(k.table, Batches(events)))
  {
    hide SameTop, Inserted, Happened;
    if events == [] {
      assert SameTop(k.table, k.table) by { SameTopAtFirst(k.table); }
    } else {
      var n := |events| - 1;
      HistoryKeepsSameTop(k, name, events[..n]);
      EventKeepsSameTop(History(k, name, events[..n]), Filled(k.table, Batches(events[..n])), name, events[n]);
      assert [events[n]][..0] == [];
    }
  }

  /** /latest answers for every device as if the worker had only ever inserted. */
  lemma WorkerCleanupIsInvisible(k: Keeper, name: string, events: seq<Event>, device: string)
    requires ValidTable(k.table.rows, k.table.nextId)
    requires forall e | e in events && e.Others? :: LimitAllows(e.operation)
    ensures Latest(History(k, name, events).table.rows, device)
            == Latest(Filled(k.table, Batches(events)).rows, device)
  {
    HistoryKeepsSameTop(k, name, events);
  }
}
