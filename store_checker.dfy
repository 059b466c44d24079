/** `AppleStoreChecker`: runs one availability check, hands the resulting snapshot to
    `processResults` (which asks the notification service for an SMS wherever the preferred
    SKU newly appears), remembers the snapshot and keeps a bounded history of checks. The
    HTTP answers, the clock readings and the outcome of each SMS attempt are inputs. */
module StoreChecker {
  import opened Common
  import opened OrderedMaps
  import opened Availability
  import Notifications

  /** What `getStatus` reports. */
  datatype TrackerStatus = TrackerStatus(
    lastCheck: Option<int>,
    currentAvailability: Snapshot,
    recentChecks: seq<CheckRecord>)

  const RecentLimit: nat := 10

  /** `getStatus` on a history and a current snapshot: the time of the newest check, if
      any, the snapshot, and the ten newest checks, newest first. */
  function StatusOf(history: seq<CheckRecord>, current: Snapshot): (st: TrackerStatus)
    ensures st.lastCheck.Some? <==> |history| > 0
    ensures st.lastCheck.Some? ==> st.lastCheck.value == history[0].timestamp
    ensures st.currentAvailability == current
    ensures |st.recentChecks| == Min(|history|, RecentLimit)
    ensures forall i :: 0 <= i < |st.recentChecks| ==> st.recentChecks[i] == history[i]
  {
    TrackerStatus(
      if |history| > 0 then Some(history[0].timestamp) else None,
      current,
      if |history| > RecentLimit then history[..RecentLimit] else history)
  }

  /** Right after a check is added, the status reports that check as the last one and as
      the first of the recent checks, followed by the checks that were newest before. */
  lemma StatusAfterCheck(history: seq<CheckRecord>, check: CheckRecord, current: Snapshot)
    ensures var st := StatusOf(PushHistory(history, check), current);
      && st.lastCheck == Some(check.timestamp)
      && st.recentChecks[0] == check
      && st.recentChecks[1..] == history[..|st.recentChecks| - 1]
  {
    var h := PushHistory(history, check);
    var st := StatusOf(h, current);
    assert h[1..] == history[..|h| - 1];
    forall i | 0 <= i < |st.recentChecks| - 1
      ensures st.recentChecks[1..][i] == history[i]
    {
      assert h[1..][i] == h[i + 1];
    }
  }

  class AppleStoreChecker {
    const config: StoreConfig
    const notifier: Notifications.TwilioService
    var checkHistory: seq<CheckRecord>
    var lastAvailability: Snapshot

    /** The snapshot is a well-formed map, the history holds at most 100 checks, and the
        notification service keeps its own invariant. */
    ghost predicate Valid()
      reads this, notifier
    {
      && lastAvailability.Valid()
      && |checkHistory| <= HistoryLimit
      && notifier.Valid()
    }

    constructor (config: StoreConfig, notifier: Notifications.TwilioService)
      requires notifier.Valid()
      ensures Valid()
      ensures this.config == config && this.notifier == notifier
      ensures checkHistory == [] && lastAvailability == Empty()
    {
      this.config := config;
      this.notifier := notifier;
      checkHistory := [];
      lastAvailability := Empty();
    }

    /** `processResults`: walks the new snapshot in key order, asks the notification
        service for an SMS for every store that newly lists the preferred SKU (the n-th
        such attempt runs in `env(n)`), then keeps the new snapshot as the last one. */
    method ProcessResults(availability: Snapshot, env: nat -> Notifications.SendEnv)
      requires Valid() && availability.Valid()
      modifies this, notifier
      ensures Valid()
      ensures lastAvailability == availability && checkHistory == old(checkHistory)
      ensures notifier.State() == Notifications.NotifyAll(
        old(notifier.State()),
        AlertStores(old(lastAvailability), availability, config.preferredSku, availability.keys),
        env, notifier.config).after
    {
      ghost var s0 := notifier.State();
      var last := lastAvailability;
      var sku := config.preferredSku;
      var attempts: seq<StoreId> := [];
      for i := 0 to |availability.keys|
        modifies notifier
        invariant notifier.Valid()
        invariant attempts == AlertStores(last, availability, sku, availability.keys[..i])
        invariant notifier.State() == Notifications.NotifyAll(s0, attempts, env, notifier.config).after
      {
        var storeId := availability.keys[i];
        var storeData := availability.vals[storeId];
        AlertStoresStep(last, availability, sku, availability.keys, i);
        if NewlyListed(last, storeId, storeData, sku) {
          var _ := notifier.SendAvailabilityNotification(storeId, env(|attempts|));
          Notifications.NotifyAllStep(s0, attempts, storeId, env, notifier.config);
          attempts := attempts + [storeId];
        }
      }
      assert availability.keys[..|availability.keys|] == availability.keys;
      lastAvailability := availability;
    }

    /** `addToHistory`: the new check goes first and the history is cut at 100. */
    method AddToHistory(check: CheckRecord)
      requires Valid()
      modifies this
      ensures Valid()
      ensures checkHistory == PushHistory(old(checkHistory), check)
      ensures lastAvailability == old(lastAvailability)
    {
      checkHistory := [check] + checkHistory;
      if |checkHistory| > HistoryLimit {
        checkHistory := checkHistory[..HistoryLimit];
      }
    }

    /** `checkAvailability`: query the API, fall back to the all-unavailable snapshot when
        it reports no store, process the snapshot, then record the check with the elapsed
        time between the two clock readings and the snapshot now held. */
    method CheckAvailability(queries: seq<VariantQuery>, env: nat -> Notifications.SendEnv,
                             startedAt: int, endedAt: int, recordedAt: int)
      requires Valid()
      modifies this, notifier
      ensures Valid()
      ensures lastAvailability == CheckedSnapshot(queries, config)
      ensures notifier.State() == Notifications.NotifyAll(
        old(notifier.State()),
        AlertStores(old(lastAvailability), lastAvailability, config.preferredSku, lastAvailability.keys),
        env, notifier.config).after
      ensures checkHistory ==
        PushHistory(old(checkHistory), CheckRecord(recordedAt, endedAt - startedAt, lastAvailability))
    {
      var apiResult := CheckViaAPI(queries, config);
      if apiResult.Some? {
        MergeAllSpec(queries, config, "");
        ProcessResults(apiResult.value, env);
      } else {
        var unavailableStatus := UnavailableSnapshot(config);
        ProcessResults(unavailableStatus, env);
      }
      var duration := endedAt - startedAt;
      AddToHistory(CheckRecord(recordedAt, duration, lastAvailability));
    }

    /** `getStatus`. */
    function GetStatus(): (st: TrackerStatus)
      reads this
      ensures st == StatusOf(checkHistory, lastAvailability)
    {
      StatusOf(checkHistory, lastAvailability)
    }
  }

  /** A check whose API answers mention no store alerts nobody, whatever the previous
      snapshot was, and leaves every configured store unavailable. */
  lemma FallbackCheckAlertsNothing(queries: seq<VariantQuery>, last: Snapshot, cfg: StoreConfig)
    requires forall id :: !Mentioned(queries, id, cfg)
    ensures var next := CheckedSnapshot(queries, cfg);
      && AlertStores(last, next, cfg.preferredSku, next.keys) == []
      && (forall id :: id in next.vals <==> id in cfg.ids)
  {
    CheckSucceedsIffMentioned(queries, cfg);
    UnavailableSnapshotAlertsNothing(last, cfg.preferredSku, cfg);
    AllUnavailableSpec(cfg.ids, cfg);
  }

  /** Two checks that produce the same snapshot: the second attempts no notification. */
  lemma RecheckWithSameSnapshotAlertsNothing(queries: seq<VariantQuery>, cfg: StoreConfig)
    ensures var next := CheckedSnapshot(queries, cfg);
      AlertStores(next, next, cfg.preferredSku, next.keys) == []
  {
    var next := CheckedSnapshot(queries, cfg);
    CheckedSnapshotSpec(queries, cfg, "");
    RepeatedSnapshotAlertsNothing(next, cfg.preferredSku);
  }
}
