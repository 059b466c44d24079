/** The value-level part of `AppleStoreChecker`: reading the pickup-availability API's
    answer for one variant, merging the answers for all variants into one snapshot per
    store, the snapshot used when the API yields nothing, and the rule that decides which
    stores get an alert. The HTTP request of each variant is an input: its response, or
    nothing when the request failed. */
module Availability {
  import opened Common
  import opened OrderedMaps

  type Sku = string

  /** One variant of the catalogue to poll. An empty `model` stands for a variant given
      without one. */
  datatype Variant = Variant(sku: Sku, model: string, storage: string, color: string)

  /** The configuration the checker reads: the SKU the user wants, the store ids to query
      and the store names. */
  datatype StoreConfig = StoreConfig(preferredSku: Sku, ids: seq<StoreId>, names: map<StoreId, string>)

  // ---------------------------------------------------------------------------
  // The API's answer. A field the answer leaves out is the empty string: for every use
  // the code makes of these fields (`||`, `===`, `includes`) the two behave alike.
  // ---------------------------------------------------------------------------

  datatype PartAvailability = PartAvailability(
    pickupDisplay: string,
    storePickupProductTitle: string,
    pickupSearchQuote: string)

  datatype ApiStore = ApiStore(
    storeNumber: StoreId,
    storeName: string,
    address: string,
    partsAvailability: map<Sku, PartAvailability>)

  datatype ApiBody = ApiBody(stores: Option<seq<ApiStore>>)

  datatype ApiResponse = ApiResponse(body: Option<ApiBody>, stores: Option<seq<ApiStore>>)

  /** One variant together with the outcome of its request: None when it threw. */
  datatype VariantQuery = VariantQuery(variant: Variant, response: Option<ApiResponse>)

  /** One store's entry in the parsed answer for one variant. */
  datatype StorePickup = StorePickup(
    available: bool,
    storeName: Option<string>,
    storeId: StoreId,
    pickupTime: string,
    address: string,
    message: string)

  datatype AvailableVariant = AvailableVariant(
    sku: Sku,
    model: string,
    color: string,
    storage: string,
    pickupTime: string)

  /** One store's entry in a snapshot. */
  datatype StoreAvailability = StoreAvailability(
    storeName: Option<string>,
    storeId: StoreId,
    address: string,
    available: bool,
    availableVariants: seq<AvailableVariant>,
    message: string)

  /** Store id to availability, in the order the stores were first seen. */
  type Snapshot = OrderedMap<StoreAvailability>

  const NotYetMessage := "Not yet available for pickup"

  // ---------------------------------------------------------------------------
  // getStoreAddress
  // ---------------------------------------------------------------------------

  const StoreAddresses: map<StoreId, string> := map[
    "R669" := "270 Orchard Road, Singapore 238857",
    "R673" := "2 Bayfront Avenue, Singapore 018972",
    "R676" := "78 Airport Boulevard, Singapore 819666"]

  /** The street address of one of the three known stores, or "" for any other id. */
  function GetStoreAddress(id: StoreId): (address: string)
    ensures address != "" <==> id in StoreAddresses
    ensures id in StoreAddresses ==> address == StoreAddresses[id]
  {
    if id in StoreAddresses then StoreAddresses[id] else ""
  }

  // ---------------------------------------------------------------------------
  // parseAPIResponse
  // ---------------------------------------------------------------------------

  /** `data.body?.stores || data.stores || []`. */
  function ResponseStores(data: ApiResponse): seq<ApiStore>
  {
    if data.body.Some? && data.body.value.stores.Some? then data.body.value.stores.value
    else if data.stores.Some? then data.stores.value
    else []
  }

  /** A store offers pickup of a part when its display says "available" or its product
      title mentions "Available". */
  predicate PickupAvailable(part: PartAvailability)
  {
    part.pickupDisplay == "available" || Includes(part.storePickupProductTitle, "Available")
  }

  function PartFor(store: ApiStore, sku: Sku): PartAvailability
  {
    if sku in store.partsAvailability then store.partsAvailability[sku]
    else PartAvailability("", "", "")
  }

  /** The parsed entry for one store record of the answer. */
  function Pickup(store: ApiStore, sku: Sku, cfg: StoreConfig): StorePickup
  {
    var part := PartFor(store, sku);
    StorePickup(
      PickupAvailable(part),
      if store.storeName != "" then Some(store.storeName) else Lookup(cfg.names, store.storeNumber),
      store.storeNumber,
      if part.pickupSearchQuote != "" then part.pickupSearchQuote else "Check store",
      store.address,
      if part.pickupSearchQuote != "" then part.pickupSearchQuote
      else if part.storePickupProductTitle != "" then part.storePickupProductTitle
      else "Not available")
  }

  /** The `forEach` over the answer's stores: configured stores only, a later record for
      the same store replacing an earlier one. */
  function ParseStores(stores: seq<ApiStore>, sku: Sku, cfg: StoreConfig): (r: OrderedMap<StorePickup>)
    ensures r.Valid()
    ensures forall id :: id in r.vals ==> id in cfg.ids
  {
    if stores == [] then Empty()
    else
      var prev := ParseStores(stores[..|stores| - 1], sku, cfg);
      var store := stores[|stores| - 1];
      if store.storeNumber in cfg.ids then Put(prev, store.storeNumber, Pickup(store, sku, cfg))
      else prev
  }

  function ParseAPIResponse(data: ApiResponse, sku: Sku, cfg: StoreConfig): (r: OrderedMap<StorePickup>)
    ensures r.Valid()
  {
    ParseStores(ResponseStores(data), sku, cfg)
  }

  /** `i` is the last record of the list for store `id`. */
  predicate LastRecordFor(stores: seq<ApiStore>, id: StoreId, i: int)
  {
    0 <= i < |stores| && stores[i].storeNumber == id
    && forall j :: i < j < |stores| ==> stores[j].storeNumber != id
  }

  /** The position of the last record for store `id`, or -1 when there is none. */
  function LastIndexOf(stores: seq<ApiStore>, id: StoreId): (i: int)
    ensures -1 <= i < |stores|
    ensures i >= 0 ==> LastRecordFor(stores, id, i)
    ensures i < 0 ==> forall j :: 0 <= j < |stores| ==> stores[j].storeNumber != id
  {
    if stores == [] then -1
    else if stores[|stores| - 1].storeNumber == id then |stores| - 1
    else LastIndexOf(stores[..|stores| - 1], id)
  }

  /** The parsed answer holds exactly the configured stores the answer mentions; each
      store's entry comes from its last record, and it is available exactly when that
      record's display says "available" or its title mentions "Available". */
  lemma ParseAPIResponseSpec(data: ApiResponse, sku: Sku, cfg: StoreConfig, id: StoreId)
    ensures var r := ParseAPIResponse(data, sku, cfg);
      && (id in r.vals <==> id in cfg.ids && exists i :: 0 <= i < |ResponseStores(data)| && ResponseStores(data)[i].storeNumber == id)
      && (id in r.vals ==> exists i :: (LastRecordFor(ResponseStores(data), id, i)
            && r.vals[id] == Pickup(ResponseStores(data)[i], sku, cfg)
            && (r.vals[id].available <==> PickupAvailable(PartFor(ResponseStores(data)[i], sku)))))
  {
    var stores := ResponseStores(data);
    ParseStoresSpec(stores, sku, cfg, id);
    var k := LastIndexOf(stores, id);
    if k >= 0 {
      assert 0 <= k < |stores| && stores[k].storeNumber == id;
    }
  }

  /** The parsed list holds a configured store exactly when the list has a record for it,
      and its entry comes from its last record. */
  lemma {:induction false} ParseStoresSpec(stores: seq<ApiStore>, sku: Sku, cfg: StoreConfig, id: StoreId)
    ensures id in ParseStores(stores, sku, cfg).vals <==> id in cfg.ids && LastIndexOf(stores, id) >= 0
    ensures id in ParseStores(stores, sku, cfg).vals ==>
      ParseStores(stores, sku, cfg).vals[id] == Pickup(stores[LastIndexOf(stores, id)], sku, cfg)
  {
    if stores != [] {
      ParseStoresSpec(stores[..|stores| - 1], sku, cfg, id);
    }
  }

  // ---------------------------------------------------------------------------
  // The merge loop of checkViaAPI
  // ---------------------------------------------------------------------------

  /** The entry a store gets when first met, and the entry of every store in the
      all-unavailable snapshot. */
  function Unavailable(id: StoreId, cfg: StoreConfig): (e: StoreAvailability)
    ensures !e.available && e.availableVariants == [] && e.storeId == id
    ensures e.message == NotYetMessage
  {
    StoreAvailability(Lookup(cfg.names, id), id, GetStoreAddress(id), false, [], NotYetMessage)
  }

  /** `${n} variant(s) available`. */
  function CountMessage(n: nat): string
  {
    NatToString(n) + " variant(s) available"
  }

  /** The record pushed for a variant a store offers; a variant without a model is
      reported as "Pro Max". */
  function Offered(v: Variant, p: StorePickup): AvailableVariant
  {
    AvailableVariant(v.sku, if v.model != "" then v.model else "Pro Max", v.color, v.storage, p.pickupTime)
  }

  /** The entry a store has so far, or the unavailable entry when it has none. */
  function Current(acc: Snapshot, id: StoreId, cfg: StoreConfig): StoreAvailability
  {
    if id in acc.vals then acc.vals[id] else Unavailable(id, cfg)
  }

  /** One store's parsed entry for one variant, applied to its merged entry. */
  function Absorb(e: StoreAvailability, v: Variant, p: StorePickup): StoreAvailability
  {
    if p.available then
      var vs := e.availableVariants + [Offered(v, p)];
      e.(available := true, availableVariants := vs, message := CountMessage(|vs|))
    else e
  }

  /** The stores `ids` of one variant's parsed answer merged, in that order, into `acc`. */
  function MergeStores(acc: Snapshot, parsed: OrderedMap<StorePickup>, ids: seq<StoreId>, v: Variant, cfg: StoreConfig): (r: Snapshot)
    requires forall id :: id in ids ==> id in parsed.vals
    ensures acc.Valid() ==> r.Valid()
  {
    if ids == [] then acc
    else
      var prev := MergeStores(acc, parsed, ids[..|ids| - 1], v, cfg);
      var id := ids[|ids| - 1];
      Put(prev, id, Absorb(Current(prev, id, cfg), v, parsed.vals[id]))
  }

  /** The request's response is usable: it arrived and has a body. */
  predicate Usable(q: VariantQuery)
  {
    q.response.Some? && q.response.value.body.Some?
  }

  /** What one variant's answer says about one store, if anything. */
  function Reported(q: VariantQuery, id: StoreId, cfg: StoreConfig): Option<StorePickup>
  {
    if Usable(q) then ParseAPIResponse(q.response.value, q.variant.sku, cfg).Get(id) else None
  }

  function MergeQuery(acc: Snapshot, q: VariantQuery, cfg: StoreConfig): Snapshot
  {
    if Usable(q) then
      var parsed := ParseAPIResponse(q.response.value, q.variant.sku, cfg);
      MergeStores(acc, parsed, parsed.keys, q.variant, cfg)
    else acc
  }

  /** The snapshot the merge loop builds from the queries, in catalogue order. */
  function MergeAll(queries: seq<VariantQuery>, cfg: StoreConfig): Snapshot
  {
    if queries == [] then Empty()
    else MergeQuery(MergeAll(queries[..|queries| - 1], cfg), queries[|queries| - 1], cfg)
  }

  /** The merge loop of `checkViaAPI`: pushes each available variant onto its store's
      entry in place. The result is the merged snapshot when it has at least one store,
      and None (the `{ success: false }` answer) otherwise. */
  method CheckViaAPI(queries: seq<VariantQuery>, cfg: StoreConfig) returns (result: Option<Snapshot>)
    ensures result.Some? <==> |MergeAll(queries, cfg).keys| > 0
    ensures result.Some? ==> result.value == MergeAll(queries, cfg)
  {
    var all: Snapshot := Empty();
    for i := 0 to |queries|
      invariant all == MergeAll(queries[..i], cfg)
    {
      var q := queries[i];
      assert queries[..i + 1][..i] == queries[..i];
      if q.response.Some? && q.response.value.body.Some? {
        var parsed := ParseAPIResponse(q.response.value, q.variant.sku, cfg);
        all := MergeVariant(all, parsed, q.variant, cfg);
      }
    }
    assert queries[..|queries|] == queries;
    if |all.keys| > 0 {
      result := Some(all);
    } else {
      result := None;
    }
  }

  /** The inner loop of the merge: one variant's parsed answer, store by store. A store
      met for the first time gets the unavailable entry; an available store gets the
      variant pushed onto its list and a message with the new count. */
  method MergeVariant(all0: Snapshot, parsed: OrderedMap<StorePickup>, v: Variant, cfg: StoreConfig) returns (all: Snapshot)
    requires parsed.Valid()
    ensures all == MergeStores(all0, parsed, parsed.keys, v, cfg)
  {
    all := all0;
    for j := 0 to |parsed.keys|
      invariant all == MergeStores(all0, parsed, parsed.keys[..j], v, cfg)
    {
      var id := parsed.keys[j];
      assert parsed.keys[..j + 1][..j] == parsed.keys[..j];
      var storeData := parsed.vals[id];
      ghost var prev := all;
      if id !in all.vals {
        all := Put(all, id, Unavailable(id, cfg));
      } else {
        PutExisting(all, id);
      }
      assert all == Put(prev, id, Current(prev, id, cfg));
      if storeData.available {
        var entry := all.vals[id];
        var variants := entry.availableVariants + [Offered(v, storeData)];
        all := Put(all, id, entry.(available := true, availableVariants := variants,
                                   message := CountMessage(|variants|)));
        PutTwice(prev, id, Current(prev, id, cfg), Absorb(Current(prev, id, cfg), v, storeData));
      }
    }
    assert parsed.keys[..|parsed.keys|] == parsed.keys;
  }

  // ---------------------------------------------------------------------------
  // What the merged snapshot holds, store by store
  // ---------------------------------------------------------------------------

  /** The variants store `id` offers according to the queries, in catalogue order. */
  function OfferedAt(queries: seq<VariantQuery>, id: StoreId, cfg: StoreConfig): seq<AvailableVariant>
  {
    if queries == [] then []
    else
      var q := queries[|queries| - 1];
      OfferedAt(queries[..|queries| - 1], id, cfg)
        + match Reported(q, id, cfg)
          case Some(p) => if p.available then [Offered(q.variant, p)] else []
          case None => []
  }

  /** Some usable answer mentions store `id`. */
  predicate Mentioned(queries: seq<VariantQuery>, id: StoreId, cfg: StoreConfig)
  {
    exists i :: 0 <= i < |queries| && Reported(queries[i], id, cfg).Some?
  }

  /** The entry a store with the given offered variants has in a merged snapshot. */
  function MergedEntry(id: StoreId, offered: seq<AvailableVariant>, cfg: StoreConfig): StoreAvailability
  {
    var e := Unavailable(id, cfg);
    if |offered| > 0 then e.(available := true, availableVariants := offered, message := CountMessage(|offered|))
    else e
  }

  /** Merging stores adds exactly those stores to the snapshot. */
  lemma {:induction false} MergeStoresKeys(acc: Snapshot, parsed: OrderedMap<StorePickup>, ids: seq<StoreId>, v: Variant, cfg: StoreConfig, id: StoreId)
    requires forall k :: k in ids ==> k in parsed.vals
    ensures id in MergeStores(acc, parsed, ids, v, cfg).vals <==> id in acc.vals || id in ids
  {
    if ids != [] {
      var init := ids[..|ids| - 1];
      var k := ids[|ids| - 1];
      MergeStoresKeys(acc, parsed, init, v, cfg, id);
      var prev := MergeStores(acc, parsed, init, v, cfg);
      assert id in MergeStores(acc, parsed, ids, v, cfg).vals <==> id in prev.vals || id == k;
      MemberSplitLast(ids, id);
    }
  }

  /** Merging stores listed once each absorbs the variant into each of them... */
  lemma {:induction false} MergeStoresSpec(acc: Snapshot, parsed: OrderedMap<StorePickup>, ids: seq<StoreId>, v: Variant, cfg: StoreConfig, id: StoreId)
    requires forall k :: k in ids ==> k in parsed.vals
    requires NoDuplicates(ids) && id in ids
    ensures Current(MergeStores(acc, parsed, ids, v, cfg), id, cfg) == Absorb(Current(acc, id, cfg), v, parsed.vals[id])
  {
    var init := ids[..|ids| - 1];
    var k := ids[|ids| - 1];
    var prev := MergeStores(acc, parsed, init, v, cfg);
    CurrentAfterPut(prev, k, Absorb(Current(prev, k, cfg), v, parsed.vals[k]), id, cfg);
    MemberSplitLast(ids, id);
    if id == k {
      NotBefore(ids, |ids| - 1);
      MergeStoresOthers(acc, parsed, init, v, cfg, id);
    } else {
      MergeStoresSpec(acc, parsed, init, v, cfg, id);
    }
  }

  /** ... and leaves every other store as it was. */
  lemma {:induction false} MergeStoresOthers(acc: Snapshot, parsed: OrderedMap<StorePickup>, ids: seq<StoreId>, v: Variant, cfg: StoreConfig, id: StoreId)
    requires forall k :: k in ids ==> k in parsed.vals
    requires id !in ids
    ensures Current(MergeStores(acc, parsed, ids, v, cfg), id, cfg) == Current(acc, id, cfg)
  {
    if ids != [] {
      var init := ids[..|ids| - 1];
      var k := ids[|ids| - 1];
      var prev := MergeStores(acc, parsed, init, v, cfg);
      CurrentAfterPut(prev, k, Absorb(Current(prev, k, cfg), v, parsed.vals[k]), id, cfg);
      MemberSplitLast(ids, id);
      MergeStoresOthers(acc, parsed, init, v, cfg, id);
    }
  }

  lemma CurrentAfterPut(prev: Snapshot, k: StoreId, e: StoreAvailability, id: StoreId, cfg: StoreConfig)
    ensures Current(Put(prev, k, e), id, cfg) == if id == k then e else Current(prev, id, cfg)
  {
  }

  lemma MergeQuerySpec(acc: Snapshot, q: VariantQuery, cfg: StoreConfig, id: StoreId)
    requires acc.Valid()
    ensures MergeQuery(acc, q, cfg).Valid()
    ensures id in MergeQuery(acc, q, cfg).vals <==> id in acc.vals || Reported(q, id, cfg).Some?
    ensures id in MergeQuery(acc, q, cfg).vals ==>
      MergeQuery(acc, q, cfg).vals[id] ==
        match Reported(q, id, cfg)
        case Some(p) => Absorb(Current(acc, id, cfg), q.variant, p)
        case None => acc.vals[id]
  {
    if Usable(q) {
      var parsed := ParseAPIResponse(q.response.value, q.variant.sku, cfg);
      MergeStoresKeys(acc, parsed, parsed.keys, q.variant, cfg, id);
      if id in parsed.keys {
        MergeStoresSpec(acc, parsed, parsed.keys, q.variant, cfg, id);
      } else {
        MergeStoresOthers(acc, parsed, parsed.keys, q.variant, cfg, id);
      }
    }
  }

  /** The merged snapshot, store by store: it has an entry for exactly the stores some
      usable answer mentions; an entry lists the variants the store offers in catalogue
      order, is available exactly when that list is non-empty, and says
      "<n> variant(s) available" then, "Not yet available for pickup" otherwise. */
  lemma {:induction false} MergeAllSpec(queries: seq<VariantQuery>, cfg: StoreConfig, id: StoreId)
    ensures MergeAll(queries, cfg).Valid()
    ensures id in MergeAll(queries, cfg).vals <==> Mentioned(queries, id, cfg)
    ensures id in MergeAll(queries, cfg).vals ==>
      MergeAll(queries, cfg).vals[id] == MergedEntry(id, OfferedAt(queries, id, cfg), cfg)
    ensures id !in MergeAll(queries, cfg).vals ==> OfferedAt(queries, id, cfg) == []
  {
    if queries != [] {
      var init := queries[..|queries| - 1];
      var q := queries[|queries| - 1];
      MergeAllSpec(init, cfg, id);
      var acc := MergeAll(init, cfg);
      var r := MergeAll(queries, cfg);
      assert r == MergeQuery(acc, q, cfg);
      MergeQuerySpec(acc, q, cfg, id);
      MentionedExtend(init, q, cfg, id);
      assert init + [q] == queries;
      match Reported(q, id, cfg)
      case None =>
        assert OfferedAt(queries, id, cfg) == OfferedAt(init, id, cfg);
      case Some(p) =>
        var before := OfferedAt(init, id, cfg);
        assert Current(acc, id, cfg) == MergedEntry(id, before, cfg);
        AbsorbIntoMerged(id, before, q.variant, p, cfg);
    }
  }

  lemma MentionedExtend(queries: seq<VariantQuery>, q: VariantQuery, cfg: StoreConfig, id: StoreId)
    ensures Mentioned(queries + [q], id, cfg) <==> Mentioned(queries, id, cfg) || Reported(q, id, cfg).Some?
  {
    var all := queries + [q];
    if Mentioned(all, id, cfg) && !Reported(q, id, cfg).Some? {
      var i :| 0 <= i < |all| && Reported(all[i], id, cfg).Some?;
      assert i < |queries| && all[i] == queries[i];
    }
    if Mentioned(queries, id, cfg) {
      var i :| 0 <= i < |queries| && Reported(queries[i], id, cfg).Some?;
      assert all[i] == queries[i];
    }
    if Reported(q, id, cfg).Some? {
      assert all[|queries|] == q;
    }
  }

  lemma AbsorbIntoMerged(id: StoreId, offered: seq<AvailableVariant>, v: Variant, p: StorePickup, cfg: StoreConfig)
    ensures Absorb(MergedEntry(id, offered, cfg), v, p)
      == MergedEntry(id, offered + (if p.available then [Offered(v, p)] else []), cfg)
  {
    if !p.available {
      assert offered + [] == offered;
    }
  }

  /** In the merged snapshot a store is available exactly when it lists a variant, and its
      message gives the count of variants when there are some. */
  lemma MergedEntriesConsistent(queries: seq<VariantQuery>, cfg: StoreConfig, id: StoreId)
    requires id in MergeAll(queries, cfg).vals
    ensures var e := MergeAll(queries, cfg).vals[id];
      && e.storeId == id
      && (e.available <==> |e.availableVariants| > 0)
      && e.message == (if e.available then CountMessage(|e.availableVariants|) else NotYetMessage)
  {
    MergeAllSpec(queries, cfg, id);
  }

  /** A variant whose request failed or whose answer has no body leaves the merged
      snapshot exactly as the other variants make it. */
  lemma {:induction false} UnusableQueryIgnored(front: seq<VariantQuery>, q: VariantQuery, back: seq<VariantQuery>, cfg: StoreConfig)
    requires !Usable(q)
    ensures MergeAll(front + [q] + back, cfg) == MergeAll(front + back, cfg)
  {
    var all := front + [q] + back;
    var rest := front + back;
    if back == [] {
      assert all == front + [q] && all[..|all| - 1] == front;
      assert rest == front;
    } else {
      var init := back[..|back| - 1];
      var last := back[|back| - 1];
      UnusableQueryIgnored(front, q, init, cfg);
      assert all[..|all| - 1] == front + [q] + init && all[|all| - 1] == last;
      assert rest[..|rest| - 1] == front + init && rest[|rest| - 1] == last;
      assert MergeAll(all, cfg) == MergeQuery(MergeAll(front + [q] + init, cfg), last, cfg);
      assert MergeAll(rest, cfg) == MergeQuery(MergeAll(front + init, cfg), last, cfg);
    }
  }

  /** `checkViaAPI` reports success exactly when some usable answer mentions a
      configured store. */
  lemma CheckSucceedsIffMentioned(queries: seq<VariantQuery>, cfg: StoreConfig)
    ensures |MergeAll(queries, cfg).keys| > 0 <==> exists id :: Mentioned(queries, id, cfg)
  {
    var m := MergeAll(queries, cfg);
    if |m.keys| > 0 {
      MergeAllSpec(queries, cfg, m.keys[0]);
    }
    if exists id :: Mentioned(queries, id, cfg) {
      var id :| Mentioned(queries, id, cfg);
      MergeAllSpec(queries, cfg, id);
    }
  }

  // ---------------------------------------------------------------------------
  // The default snapshot of checkAvailability
  // ---------------------------------------------------------------------------

  /** The snapshot used when the API yields no store: one unavailable entry per
      configured store id, in configuration order. */
  function AllUnavailable(ids: seq<StoreId>, cfg: StoreConfig): (r: Snapshot)
    ensures r.Valid()
  {
    if ids == [] then Empty()
    else
      var id := ids[|ids| - 1];
      Put(AllUnavailable(ids[..|ids| - 1], cfg), id, Unavailable(id, cfg))
  }

  /** The all-unavailable snapshot has an entry for exactly the configured stores, each
      the unavailable entry, and no more entries than configured ids. */
  lemma {:induction false} AllUnavailableSpec(ids: seq<StoreId>, cfg: StoreConfig)
    ensures forall id :: id in AllUnavailable(ids, cfg).vals <==> id in ids
    ensures forall id :: id in AllUnavailable(ids, cfg).vals ==>
      AllUnavailable(ids, cfg).vals[id] == Unavailable(id, cfg)
    ensures |AllUnavailable(ids, cfg).keys| <= |ids|
  {
    if ids != [] {
      var init := ids[..|ids| - 1];
      AllUnavailableSpec(init, cfg);
      SplitLast(ids);
    }
  }

  /** The `forEach` of `checkAvailability` that builds the all-unavailable snapshot. */
  method UnavailableSnapshot(cfg: StoreConfig) returns (snap: Snapshot)
    ensures snap == AllUnavailable(cfg.ids, cfg)
  {
    snap := Empty();
    for i := 0 to |cfg.ids|
      invariant snap == AllUnavailable(cfg.ids[..i], cfg)
    {
      var storeId := cfg.ids[i];
      assert cfg.ids[..i + 1][..i] == cfg.ids[..i];
      snap := Put(snap, storeId, Unavailable(storeId, cfg));
    }
    assert cfg.ids[..|cfg.ids|] == cfg.ids;
  }

  /** The snapshot `checkAvailability` hands to `processResults`: the merged snapshot
      when the API reported some store, the all-unavailable one otherwise. */
  function CheckedSnapshot(queries: seq<VariantQuery>, cfg: StoreConfig): (r: Snapshot)
    ensures r.Valid()
  {
    MergeAllSpec(queries, cfg, "");
    var merged := MergeAll(queries, cfg);
    if |merged.keys| > 0 then merged else AllUnavailable(cfg.ids, cfg)
  }

  /** When some usable answer mentions a store, the snapshot holds the stores the answers
      mention and nothing else (configured stores the API left out are absent); when none
      does, it holds every configured store, unavailable. */
  lemma CheckedSnapshotSpec(queries: seq<VariantQuery>, cfg: StoreConfig, id: StoreId)
    ensures CheckedSnapshot(queries, cfg).Valid()
    ensures (exists x :: Mentioned(queries, x, cfg)) ==>
      (id in CheckedSnapshot(queries, cfg).vals <==> Mentioned(queries, id, cfg))
    ensures (exists x :: Mentioned(queries, x, cfg)) && id in CheckedSnapshot(queries, cfg).vals ==>
      CheckedSnapshot(queries, cfg).vals[id] == MergedEntry(id, OfferedAt(queries, id, cfg), cfg)
    ensures !(exists x :: Mentioned(queries, x, cfg)) ==>
      (id in CheckedSnapshot(queries, cfg).vals <==> id in cfg.ids)
    ensures !(exists x :: Mentioned(queries, x, cfg)) && id in CheckedSnapshot(queries, cfg).vals ==>
      CheckedSnapshot(queries, cfg).vals[id] == Unavailable(id, cfg)
  {
    CheckSucceedsIffMentioned(queries, cfg);
    MergeAllSpec(queries, cfg, id);
    AllUnavailableSpec(cfg.ids, cfg);
  }

  // ---------------------------------------------------------------------------
  // The alert rule of processResults
  // ---------------------------------------------------------------------------

  /** The entry lists the given SKU among its available variants. */
  predicate Lists(e: StoreAvailability, sku: Sku)
  {
    exists i :: 0 <= i < |e.availableVariants| && e.availableVariants[i].sku == sku
  }

  /** The store now lists the preferred SKU and its previous entry, if any, did not. */
  predicate NewlyListed(last: Snapshot, id: StoreId, e: StoreAvailability, sku: Sku)
  {
    Lists(e, sku) && !(id in last.vals && Lists(last.vals[id], sku))
  }

  /** Store `id` of the new snapshot newly lists the SKU. */
  predicate AlertDue(last: Snapshot, next: Snapshot, id: StoreId, sku: Sku)
  {
    id in next.vals && NewlyListed(last, id, next.vals[id], sku)
  }

  /** The stores, among `ids` of the new snapshot, for which `processResults` attempts a
      notification, in iteration order. */
  function AlertStores(last: Snapshot, next: Snapshot, sku: Sku, ids: seq<StoreId>): (r: seq<StoreId>)
    ensures |r| <= |ids|
  {
    if ids == [] then []
    else
      var id := ids[|ids| - 1];
      var prev := AlertStores(last, next, sku, ids[..|ids| - 1]);
      if AlertDue(last, next, id, sku) then prev + [id] else prev
  }

  /** A store is in the alert list exactly when it is iterated and newly lists the SKU;
      iterating distinct stores yields distinct alerts. */
  lemma {:induction false} AlertStoresSpec(last: Snapshot, next: Snapshot, sku: Sku, ids: seq<StoreId>)
    ensures forall id :: id in AlertStores(last, next, sku, ids) <==> id in ids && AlertDue(last, next, id, sku)
    ensures NoDuplicates(ids) ==> NoDuplicates(AlertStores(last, next, sku, ids))
  {
    if ids != [] {
      var init := ids[..|ids| - 1];
      var id := ids[|ids| - 1];
      SplitLast(ids);
      AlertStoresSpec(last, next, sku, init);
      var prev := AlertStores(last, next, sku, init);
      if NoDuplicates(ids) {
        assert NoDuplicates(init);
        NotBefore(ids, |ids| - 1);
        if AlertDue(last, next, id, sku) {
          var r := prev + [id];
          forall i, j | 0 <= i < j < |r| ensures r[i] != r[j] {
            if j == |prev| {
              assert r[i] == prev[i] && prev[i] in prev;
            }
          }
        }
      }
    }
  }

  /** One more store of the iteration: it is added to the alert list exactly when it newly
      lists the SKU. */
  lemma AlertStoresStep(last: Snapshot, next: Snapshot, sku: Sku, ids: seq<StoreId>, i: nat)
    requires i < |ids|
    ensures AlertStores(last, next, sku, ids[..i + 1]) ==
      AlertStores(last, next, sku, ids[..i]) + (if AlertDue(last, next, ids[i], sku) then [ids[i]] else [])
  {
    assert ids[..i + 1][..i] == ids[..i];
  }

  /** Each `processResults` call attempts at most one notification per store, and one for
      every store that newly lists the SKU. */
  lemma AtMostOneAlertPerStore(last: Snapshot, next: Snapshot, sku: Sku)
    requires next.Valid()
    ensures NoDuplicates(AlertStores(last, next, sku, next.keys))
    ensures forall id :: id in AlertStores(last, next, sku, next.keys) <==>
      id in next.vals && NewlyListed(last, id, next.vals[id], sku)
  {
    AlertStoresSpec(last, next, sku, next.keys);
  }

  /** Neither a store that already listed the preferred SKU nor one that does not list it
      now gets an alert, even when it turned from unavailable to available for another
      variant. */
  lemma NoAlertWithoutPreferredTransition(last: Snapshot, next: Snapshot, sku: Sku, id: StoreId)
    requires next.Valid() && id in next.vals
    requires !Lists(next.vals[id], sku) || (id in last.vals && Lists(last.vals[id], sku))
    ensures id !in AlertStores(last, next, sku, next.keys)
  {
    AlertStoresSpec(last, next, sku, next.keys);
  }

  /** No store is newly listing the SKU, so no notification is attempted. */
  lemma {:induction false} NothingNewNoAlert(last: Snapshot, next: Snapshot, sku: Sku, ids: seq<StoreId>)
    requires forall id :: id in ids ==> !AlertDue(last, next, id, sku)
    ensures AlertStores(last, next, sku, ids) == []
  {
    if ids != [] {
      NothingNewNoAlert(last, next, sku, ids[..|ids| - 1]);
    }
  }

  /** Processing the snapshot that was processed last time attempts no notification. */
  lemma RepeatedSnapshotAlertsNothing(next: Snapshot, sku: Sku)
    requires next.Valid()
    ensures AlertStores(next, next, sku, next.keys) == []
  {
    NothingNewNoAlert(next, next, sku, next.keys);
  }

  /** The all-unavailable snapshot never triggers a notification, whatever came before. */
  lemma UnavailableSnapshotAlertsNothing(last: Snapshot, sku: Sku, cfg: StoreConfig)
    ensures AlertStores(last, AllUnavailable(cfg.ids, cfg), sku, AllUnavailable(cfg.ids, cfg).keys) == []
  {
    var next := AllUnavailable(cfg.ids, cfg);
    AllUnavailableSpec(cfg.ids, cfg);
    NothingNewNoAlert(last, next, sku, next.keys);
  }

  /** Of two stores processed in turn, only the one that newly lists the SKU is alerted. */
  lemma TwoStoreAlert(last: Snapshot, a: StoreId, ea: StoreAvailability, b: StoreId, eb: StoreAvailability, sku: Sku)
    requires a != b
    requires NewlyListed(last, a, ea, sku) && !NewlyListed(last, b, eb, sku)
    ensures var next := Put(Put(Empty(), a, ea), b, eb);
      AlertStores(last, next, sku, next.keys) == [a]
  {
    var next := Put(Put(Empty(), a, ea), b, eb);
    assert next.keys == [a, b];
    assert next.vals[a] == ea && next.vals[b] == eb;
    assert [a, b][..1] == [a] && [a][..0] == [];
    assert AlertStores(last, next, sku, []) == [];
    assert AlertStores(last, next, sku, [a]) == [a];
  }

  /** Two stores: Orchard Road newly offers the preferred SKU, Marina Bay Sands offers only
      another variant. Exactly one alert is attempted, for Orchard Road. */
  lemma AlertExample(cfg: StoreConfig)
    ensures var sku := "MZ7C3ZP/A";
      var last := Put(Empty(), "R669", Unavailable("R669", cfg));
      var silver := AvailableVariant(sku, "Pro Max", "Silver", "256GB", "Today");
      var graphite := AvailableVariant("MZ7E3ZP/A", "Pro Max", "Graphite", "256GB", "Today");
      var next := Put(Put(Empty(),
        "R669", Unavailable("R669", cfg).(available := true, availableVariants := [silver])),
        "R673", Unavailable("R673", cfg).(available := true, availableVariants := [graphite]));
      AlertStores(last, next, sku, next.keys) == ["R669"]
  {
    var sku := "MZ7C3ZP/A";
    var last := Put(Empty(), "R669", Unavailable("R669", cfg));
    var silver := AvailableVariant(sku, "Pro Max", "Silver", "256GB", "Today");
    var graphite := AvailableVariant("MZ7E3ZP/A", "Pro Max", "Graphite", "256GB", "Today");
    var orchard := Unavailable("R669", cfg).(available := true, availableVariants := [silver]);
    var marina := Unavailable("R673", cfg).(available := true, availableVariants := [graphite]);
    assert "R669" != "R673" by { assert "R669"[3] != "R673"[3]; }
    assert graphite.sku != sku by { assert sku[3] != "MZ7E3ZP/A"[3]; }
    assert Lists(orchard, sku) by { assert orchard.availableVariants[0].sku == sku; }
    assert last.vals["R669"].availableVariants == [];
    TwoStoreAlert(last, "R669", orchard, "R673", marina, sku);
  }

  // ---------------------------------------------------------------------------
  // Check history
  // ---------------------------------------------------------------------------

  const HistoryLimit: nat := 100

  /** One completed check: when it ended, how long it took and the snapshot it left. */
  datatype CheckRecord = CheckRecord(timestamp: int, duration: int, results: Snapshot)

  /** `addToHistory`: the newest record goes first; older records keep their order and,
      past 100, the oldest are dropped. */
  function PushHistory(history: seq<CheckRecord>, check: CheckRecord): (r: seq<CheckRecord>)
    ensures |r| == Min(|history| + 1, HistoryLimit)
    ensures r[0] == check
    ensures r[1..] == history[..|r| - 1]
  {
    var grown := [check] + history;
    if |grown| > HistoryLimit then grown[..HistoryLimit] else grown
  }

  /** The history after several checks, oldest first. */
  function PushAll(history: seq<CheckRecord>, checks: seq<CheckRecord>): seq<CheckRecord>
  {
    if checks == [] then history
    else PushHistory(PushAll(history, checks[..|checks| - 1]), checks[|checks| - 1])
  }

  function Reverse<T>(s: seq<T>): (r: seq<T>)
    ensures |r| == |s|
    ensures forall i :: 0 <= i < |s| ==> r[i] == s[|s| - 1 - i]
  {
    if s == [] then [] else [s[|s| - 1]] + Reverse(s[..|s| - 1])
  }

  /** After any number of checks the history holds the newest records, newest first,
      followed by what was there before, cut at 100. */
  lemma {:induction false} PushAllNewestFirst(history: seq<CheckRecord>, checks: seq<CheckRecord>)
    requires |history| <= HistoryLimit
    ensures var all := Reverse(checks) + history;
      PushAll(history, checks) == all[..Min(|all|, HistoryLimit)]
  {
    if checks != [] {
      var init := checks[..|checks| - 1];
      var c := checks[|checks| - 1];
      PushAllNewestFirst(history, init);
      var prevAll := Reverse(init) + history;
      var all := Reverse(checks) + history;
      assert all == [c] + prevAll;
      var prev := prevAll[..Min(|prevAll|, HistoryLimit)];
      var r := PushHistory(prev, c);
      assert r == all[..Min(|all|, HistoryLimit)];
    }
  }

  /** 150 checks from an empty history leave the 100 newest, newest first. */
  lemma HistoryAfter150Checks(checks: seq<CheckRecord>)
    requires |checks| == 150
    ensures |PushAll([], checks)| == 100
    ensures forall i :: 0 <= i < 100 ==> PushAll([], checks)[i] == checks[149 - i]
  {
    PushAllNewestFirst([], checks);
    assert Reverse(checks) + [] == Reverse(checks);
  }
}
