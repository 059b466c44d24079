/** The SMS notification gate of `TwilioService`: a daily counter with a cap, reset on a
    change of calendar day, and a cooldown per store. The SMS transport, the clock and the
    calendar are inputs: each attempt gets the time of the gate check, the time the
    transport call returned and whether it succeeded. */
module Notifications {
  import opened Common
  import opened OrderedMaps


  /** Fixed settings of the service. `hasClient` says whether the SMS client was created
      at start-up (it is only created when credentials are configured); `dayOf` maps a time
      in milliseconds to its local calendar day, the comparison `toDateString` makes. */
  datatype NotifierConfig = NotifierConfig(
    hasClient: bool,
    cooldownMinutes: nat,
    maxPerDay: nat,
    dayOf: int -> int)

  function CooldownMs(cfg: NotifierConfig): nat
  {
    cfg.cooldownMinutes * MsPerMinute
  }

  /** What the service remembers: sends counted for the current day, the time the counter
      was last reset, and the time of the last delivered SMS per store. */
  datatype GateState = GateState(count: nat, resetAt: int, lastSent: OrderedMap<int>)

  /** The invariant the service keeps: the daily count never exceeds the daily cap. */
  ghost predicate Inv(s: GateState, cfg: NotifierConfig)
  {
    s.count <= cfg.maxPerDay && s.lastSent.Valid()
  }

  /** `store` had a message delivered less than the cooldown before `now`. */
  predicate CoolingDown(s: GateState, store: StoreId, now: int, cfg: NotifierConfig)
  {
    store in s.lastSent.vals && now - s.lastSent.vals[store] < CooldownMs(cfg)
  }

  /** The first step of every gate check: on a new calendar day the counter restarts at 0
      and the reset time becomes now; within the same day nothing changes. */
  function Rollover(s: GateState, now: int, cfg: NotifierConfig): (r: GateState)
    ensures r.lastSent == s.lastSent
    ensures cfg.dayOf(now) != cfg.dayOf(s.resetAt) ==> r.count == 0 && r.resetAt == now
    ensures cfg.dayOf(now) == cfg.dayOf(s.resetAt) ==> r == s
    ensures cfg.dayOf(r.resetAt) == cfg.dayOf(now)
    ensures r.count <= s.count
  {
    if cfg.dayOf(now) != cfg.dayOf(s.resetAt) then s.(count := 0, resetAt := now) else s
  }

  /** An answer of the gate together with the state it leaves behind. */
  datatype Decision = Decision(allow: bool, after: GateState)

  /** `shouldSendNotification`: roll the day over, then deny at the daily cap, then deny
      while the store is cooling down. Reaching the cap exactly denies; an elapsed time
      exactly equal to the cooldown allows. */
  function ShouldSend(s: GateState, store: StoreId, now: int, cfg: NotifierConfig): (d: Decision)
    ensures d.after == Rollover(s, now, cfg)
    ensures d.after.count >= cfg.maxPerDay ==> !d.allow
    ensures CoolingDown(s, store, now, cfg) ==> !d.allow
    ensures d.after.count < cfg.maxPerDay && !CoolingDown(s, store, now, cfg) ==> d.allow
  {
    var r := Rollover(s, now, cfg);
    if r.count >= cfg.maxPerDay then
      Decision(false, r)
    else if store in r.lastSent.vals && now - r.lastSent.vals[store] < CooldownMs(cfg) then
      Decision(false, r)
    else
      Decision(true, r)
  }

  /** What happened around one send attempt: the time of the gate check, the time the
      transport call returned, and whether it delivered the message. */
  datatype SendEnv = SendEnv(now: int, doneAt: int, transportOk: bool)

  /** The tracking update that follows a delivered SMS. */
  function Record(s: GateState, store: StoreId, at: int): GateState
  {
    s.(count := s.count + 1, lastSent := Put(s.lastSent, store, at))
  }

  /** `sendAvailabilityNotification` with the transport abstracted: without a client it
      stops before the gate (so no daily reset happens); otherwise it consults the gate
      and, only when the gate allows and the transport delivers, records the send time
      for this store and counts the send. */
  function Notify(s: GateState, store: StoreId, e: SendEnv, cfg: NotifierConfig): (d: Decision)
    ensures !cfg.hasClient ==> d == Decision(false, s)
    ensures d.allow <==> cfg.hasClient && ShouldSend(s, store, e.now, cfg).allow && e.transportOk
    ensures d.allow ==> d.after == Record(Rollover(s, e.now, cfg), store, e.doneAt)
    ensures cfg.hasClient && !d.allow ==> d.after == Rollover(s, e.now, cfg)
    ensures Inv(s, cfg) ==> Inv(d.after, cfg)
    ensures forall other :: other != store ==> d.after.lastSent.Get(other) == s.lastSent.Get(other)
  {
    if !cfg.hasClient then
      Decision(false, s)
    else
      var g := ShouldSend(s, store, e.now, cfg);
      if !g.allow || !e.transportOk then Decision(false, g.after)
      else Decision(true, Record(g.after, store, e.doneAt))
  }

  /** The outcome of a series of attempts: how many SMS were delivered, and the state. */
  datatype Batch = Batch(sent: nat, after: GateState)

  /** Attempts to the given stores, one after the other; attempt number `k` runs in
      environment `env(k)`. */
  function NotifyAll(s: GateState, stores: seq<StoreId>, env: nat -> SendEnv, cfg: NotifierConfig): (b: Batch)
    ensures b.sent <= |stores|
    ensures Inv(s, cfg) ==> Inv(b.after, cfg)
  {
    if stores == [] then
      Batch(0, s)
    else
      var prev := NotifyAll(s, stores[..|stores| - 1], env, cfg);
      var d := Notify(prev.after, stores[|stores| - 1], env(|stores| - 1), cfg);
      Batch(prev.sent + (if d.allow then 1 else 0), d.after)
  }

  /** One more attempt at the end of a series runs as attempt number `|stores|`. */
  lemma NotifyAllStep(s: GateState, stores: seq<StoreId>, store: StoreId, env: nat -> SendEnv, cfg: NotifierConfig)
    ensures NotifyAll(s, stores + [store], env, cfg).after ==
      Notify(NotifyAll(s, stores, env, cfg).after, store, env(|stores|), cfg).after
  {
    assert (stores + [store])[..|stores|] == stores;
  }

  /** Within one calendar day the counter is exactly the number of delivered messages, and
      no series of attempts delivers more than the cap allows. */
  lemma {:induction false} SameDayDeliveriesBounded(s: GateState, stores: seq<StoreId>, env: nat -> SendEnv, cfg: NotifierConfig)
    requires Inv(s, cfg)
    requires forall k :: 0 <= k < |stores| ==> cfg.dayOf(env(k).now) == cfg.dayOf(s.resetAt)
    ensures NotifyAll(s, stores, env, cfg).after.resetAt == s.resetAt
    ensures NotifyAll(s, stores, env, cfg).after.count == s.count + NotifyAll(s, stores, env, cfg).sent
    ensures NotifyAll(s, stores, env, cfg).sent <= cfg.maxPerDay - s.count
  {
    if stores != [] {
      var init := stores[..|stores| - 1];
      SameDayDeliveriesBounded(s, init, env, cfg);
      var prev := NotifyAll(s, init, env, cfg);
      assert Inv(prev.after, cfg);
    }
  }

  /** Cooldowns are per store: attempts to other stores never change a store's record. */
  lemma {:induction false} OtherStoresKeepTheirRecord(s: GateState, stores: seq<StoreId>, env: nat -> SendEnv, cfg: NotifierConfig, store: StoreId)
    requires store !in stores
    ensures NotifyAll(s, stores, env, cfg).after.lastSent.Get(store) == s.lastSent.Get(store)
  {
    if stores != [] {
      OtherStoresKeepTheirRecord(s, stores[..|stores| - 1], env, cfg, store);
    }
  }

  /** A store with no recorded send is limited by the daily cap alone. */
  lemma NeverSentOnlyCapLimits(s: GateState, store: StoreId, now: int, cfg: NotifierConfig)
    requires store !in s.lastSent.vals
    ensures ShouldSend(s, store, now, cfg).allow <==> Rollover(s, now, cfg).count < cfg.maxPerDay
  {
  }

  /** With a cap of two, a third attempt on the same day is denied whatever time has
      passed, once two messages were delivered. */
  lemma ThirdSameDaySendDenied(s: GateState, store: StoreId, e1: SendEnv, e2: SendEnv, e3: SendEnv, cfg: NotifierConfig)
    requires cfg.maxPerDay == 2 && Inv(s, cfg)
    requires cfg.dayOf(e1.now) == cfg.dayOf(e2.now) == cfg.dayOf(e3.now) == cfg.dayOf(s.resetAt)
    requires Notify(s, store, e1, cfg).allow
    requires Notify(Notify(s, store, e1, cfg).after, store, e2, cfg).allow
    ensures !Notify(Notify(Notify(s, store, e1, cfg).after, store, e2, cfg).after, store, e3, cfg).allow
  {
    var s1 := Notify(s, store, e1, cfg).after;
    var s2 := Notify(s1, store, e2, cfg).after;
    assert s1.resetAt == s.resetAt && s1.count == s.count + 1;
    assert s2.resetAt == s.resetAt && s2.count == 2;
  }

  /** With a 30 minute cooldown and a cap of ten, a second event for the same store 10
      minutes after a delivered message is denied, and one 31 minutes after is allowed. */
  lemma CooldownExample(s: GateState, store: StoreId, e1: SendEnv, cfg: NotifierConfig)
    requires cfg.cooldownMinutes == 30 && cfg.maxPerDay == 10 && s.count == 0
    requires Notify(s, store, e1, cfg).allow
    ensures !ShouldSend(Notify(s, store, e1, cfg).after, store, e1.doneAt + 10 * MsPerMinute, cfg).allow
    ensures ShouldSend(Notify(s, store, e1, cfg).after, store, e1.doneAt + 31 * MsPerMinute, cfg).allow
  {
    var s1 := Notify(s, store, e1, cfg).after;
    assert s1.lastSent.vals[store] == e1.doneAt;
    assert s1.count <= 1;
  }

  /** One entry of `getStats().lastNotifications`. */
  datatype SentRecord = SentRecord(storeId: StoreId, storeName: string, time: int)

  datatype Stats = Stats(
    dailyCount: nat,
    dailyLimit: nat,
    cooldownMinutes: nat,
    lastNotifications: seq<SentRecord>)

  /** The configured name of a store, or its id when none is configured. */
  function DisplayName(names: map<StoreId, string>, id: StoreId): string
  {
    if id in names && names[id] != "" then names[id] else id
  }

  /** `getStats` on a state: the counter, the configured cap and cooldown, and one entry
      per store with a recorded send, in the order the stores were first notified. */
  function StatsOf(s: GateState, names: map<StoreId, string>, cfg: NotifierConfig): (st: Stats)
    requires s.lastSent.Valid()
    ensures st.dailyCount == s.count
    ensures st.dailyLimit == cfg.maxPerDay && st.cooldownMinutes == cfg.cooldownMinutes
    ensures |st.lastNotifications| == |s.lastSent.keys|
    ensures forall i :: 0 <= i < |st.lastNotifications| ==>
      st.lastNotifications[i].storeId == s.lastSent.keys[i]
    ensures forall i :: 0 <= i < |st.lastNotifications| ==>
      var r := st.lastNotifications[i];
      r.time == s.lastSent.vals[r.storeId] && r.storeName == DisplayName(names, r.storeId)
  {
    var m := s.lastSent;
    var recs := seq(|m.keys|, i requires 0 <= i < |m.keys| => SentRecord(m.keys[i], DisplayName(names, m.keys[i]), m.vals[m.keys[i]]));
    Stats(s.count, cfg.maxPerDay, cfg.cooldownMinutes, recs)
  }

  /** `getStats` lists every store with a recorded send exactly once, and nothing else. */
  lemma StatsListEachNotifiedStoreOnce(s: GateState, names: map<StoreId, string>, cfg: NotifierConfig)
    requires s.lastSent.Valid()
    ensures var st := StatsOf(s, names, cfg);
      && |st.lastNotifications| == |s.lastSent.vals|
      && (forall id :: id in s.lastSent.vals <==>
            exists i :: 0 <= i < |st.lastNotifications| && st.lastNotifications[i].storeId == id)
      && (forall i, j :: 0 <= i < j < |st.lastNotifications| ==>
            st.lastNotifications[i].storeId != st.lastNotifications[j].storeId)
  {
    var st := StatsOf(s, names, cfg);
    KeysCardinality(s.lastSent);
    forall id | id in s.lastSent.vals
      ensures exists i :: 0 <= i < |st.lastNotifications| && st.lastNotifications[i].storeId == id
    {
      var i :| 0 <= i < |s.lastSent.keys| && s.lastSent.keys[i] == id;
      assert st.lastNotifications[i].storeId == id;
    }
  }

  class TwilioService {
    const config: NotifierConfig
    var notificationCount: nat
    var dailyNotificationReset: int
    var lastNotificationTime: OrderedMap<int>

    function State(): GateState
      reads this
    {
      GateState(notificationCount, dailyNotificationReset, lastNotificationTime)
    }

    ghost predicate Valid()
      reads this
    {
      Inv(State(), config)
    }

    constructor (config: NotifierConfig, now: int)
      ensures Valid() && this.config == config
      ensures State() == GateState(0, now, Empty())
    {
      this.config := config;
      notificationCount := 0;
      dailyNotificationReset := now;
      lastNotificationTime := Empty();
    }

    method ShouldSendNotification(storeId: StoreId, now: int) returns (allow: bool)
      requires Valid()
      modifies this
      ensures Valid()
      ensures Decision(allow, State()) == ShouldSend(old(State()), storeId, now, config)
    {
      if config.dayOf(now) != config.dayOf(dailyNotificationReset) {
        notificationCount := 0;
        dailyNotificationReset := now;
      }
      if notificationCount >= config.maxPerDay {
        return false;
      }
      if storeId in lastNotificationTime.vals {
        var elapsed := now - lastNotificationTime.vals[storeId];
        if elapsed < CooldownMs(config) {
          return false;
        }
      }
      return true;
    }

    method SendAvailabilityNotification(storeId: StoreId, e: SendEnv) returns (sent: bool)
      requires Valid()
      modifies this
      ensures Valid()
      ensures Decision(sent, State()) == Notify(old(State()), storeId, e, config)
    {
      if !config.hasClient {
        return false;
      }
      var allow := ShouldSendNotification(storeId, e.now);
      if !allow {
        return false;
      }
      if !e.transportOk {
        return false;
      }
      lastNotificationTime := Put(lastNotificationTime, storeId, e.doneAt);
      notificationCount := notificationCount + 1;
      return true;
    }

    /** `getStats`. */
    function GetStats(names: map<StoreId, string>): (st: Stats)
      reads this
      requires lastNotificationTime.Valid()
      ensures st == StatsOf(State(), names, config)
    {
      StatsOf(State(), names, config)
    }
  }
}
