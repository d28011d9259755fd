/** The client cache object, updated in place (esconf/esconf-cache.c).  The daemon's answers to
    synchronous calls are parameters; an asynchronous call and an emission are results. */
module Cache {
  import opened Base
  import opened Values
  import opened CacheModel

  class Cancellable {
    var cancelled: bool
    /** The item it was made for. */
    ghost const owner: OldItem

    constructor (ghost owner: OldItem)
      ensures !cancelled && this.owner == owner
    {
      cancelled := false;
      this.owner := owner;
    }
  }

  class OldItem {
    const property: Name
    ghost const serial: nat
    var item: Option<Value>
    var cancellable: Cancellable?
    var count: int
    var variant: Option<Variant>
    /** How often the memory of this item was given back. */
    ghost var frees: nat

    constructor (property: Name, item: Option<Value>, ghost serial: nat)
      ensures this.property == property && this.serial == serial && frees == 0
      ensures this.item == item && count == 0 && variant == None
      ensures cancellable != null && fresh(cancellable) && !cancellable.cancelled && cancellable.owner == this
    {
      this.property := property;
      this.serial := serial;
      this.item := item;
      count := 0;
      variant := None;
      frees := 0;
      new;
      cancellable := new Cancellable(this);
    }

    /** `esconf_cache_old_item_free`. */
    method Free()
      requires cancellable != null && cancellable.cancelled
      modifies this`frees
      ensures frees == old(frees) + 1
    {
      frees := frees + 1;
    }
  }

  /** An old item after finalization: as it was, but cancelled if its last call was pending. */
  ghost predicate LeftBehind(o: OldItem, record: OldRecord)
    reads o, o.cancellable
  {
    && o.frees == 0 && o.count == record.count
    && o.cancellable != null && (o.cancellable.cancelled <==> record.live)
  }

  class EsconfCache {
    var properties: map<Name, Value>
    var pendingCalls: map<Cancellable, OldItem>
    var oldProperties: map<Name, OldItem>
    /** The value of the whole cache; `Valid` ties it to the tables. */
    ghost var model: CacheState
    /** The old items and their cancellables. */
    ghost var Repr: set<object>

    /** Both tables of pending work describe the same items: every old item sits under its own
        name, with a cancellable of its own that was not used yet, and `pending_calls` maps an
        item's current cancellable to that item and nothing else. */
    ghost predicate Valid()
      reads this, Repr, pendingCalls.Values
    {
      && this !in Repr
      && model.props == properties
      && model.pending.Keys == oldProperties.Keys
      && (forall p {:trigger Filed(p)} :: p in oldProperties ==> Filed(p))
      && (forall c: Cancellable {:trigger Waiting(c)} :: c in pendingCalls ==> Waiting(c))
    }

    ghost predicate Filed(p: Name)
      requires p in oldProperties && model.pending.Keys == oldProperties.Keys
      reads this, Repr
    {
      var o := oldProperties[p];
      && o in Repr && o.cancellable in Repr
      && o.property == p && o.frees == 0
      && o.cancellable != null && o.cancellable.owner == o && !o.cancellable.cancelled
      && model.pending[p] == OldRecord(o.serial, o.item, o.count, o.variant, o.cancellable in pendingCalls)
    }

    ghost predicate Waiting(c: Cancellable)
      requires c in pendingCalls
      reads this, pendingCalls.Values
    {
      var o := pendingCalls[c];
      o.property in oldProperties && oldProperties[o.property] == o && o.cancellable == c
    }

    /** `o` is the old item of its property. */
    ghost predicate Owns(o: OldItem)
      reads this
    {
      o.property in oldProperties && oldProperties[o.property] == o
    }

    constructor ()
      ensures Valid() && model == EMPTY_CACHE && Repr == {}
    {
      properties := map[];
      pendingCalls := map[];
      oldProperties := map[];
      model := EMPTY_CACHE;
      Repr := {};
    }

    /** Changes of the `properties` table alone. */
    method PutProperties(props: map<Name, Value>)
      requires Valid()
      modifies this`properties, this`model
      ensures Valid() && properties == props && model == old(model).(props := props)
    {
      properties := props;
      model := model.(props := props);
      forall p | p in oldProperties ensures Filed(p) {
        assert old(Filed(p));
      }
      forall c: Cancellable | c in pendingCalls ensures Waiting(c) {
        assert old(Waiting(c));
      }
    }

    // ---------- lookup and set ----------

    method LookupLocked(property: Name, fetch: Fetch) returns (r: Option<Value>)
      requires Valid()
      modifies this`properties, this`model
      ensures Valid() && model == AfterLookup(old(model), property, fetch)
      ensures r == Lookup(properties, property)
      ensures r == if property in old(properties) then Some(old(properties)[property])
                   else if fetch.Found? then Some(fetch.value) else None
    {
      if property in properties {
        r := Some(properties[property]);
      } else if fetch.Found? {
        PutProperties(properties[property := fetch.value]);
        r := Some(fetch.value);
      } else {
        r := None;
      }
    }

    method Set(property: Name, value: Value, fetch: Fetch)
      returns (ret: bool, sent: Option<Variant>, ghost cancelled: bool, emitted: Option<Emission>)
      requires Valid()
      modifies this, Repr
      ensures Valid() && fresh(Repr - old(Repr))
      ensures SetOutcome(model, ret, sent, cancelled, emitted)
              == CacheModel.Set(old(model), property, value, fetch)
      ensures Told(AfterLookup(old(model), property, fetch).props, properties, emitted)
    {
      SetTells(model, property, value, fetch);
      cancelled, sent, emitted := false, None, None;
      if property !in properties {
        var found := LookupLocked(property, fetch);
        if found.None? && fetch.Failed? {
          ret := false;
          return;
        }
      }
      if property in properties && IsEqual(Some(properties[property]), Some(value)) {
        ret := true;
        return;
      }
      var oldItem, wasLive := ClaimOldItem(property);
      cancelled := wasLive;
      var val := GValueToGVariant(value);
      if val.Some? {
        sent := val;
        emitted := Some(Emission(property, Some(value)));
        ret := true;
        assert Filed(property);
        FileCall(oldItem, val.value);
        PutProperties(properties[property := value]);
      } else {
        ret := false;
      }
    }

    /** The old item this set works with: a running one gives up its call and its variant, a new
        one remembers the value the property has now. */
    method ClaimOldItem(property: Name) returns (oldItem: OldItem, ghost cancelled: bool)
      requires Valid()
      modifies this, Repr
      ensures Valid() && fresh(Repr - old(Repr)) && Owns(oldItem) && oldItem.property == property
      ensures cancelled == (property in old(model.pending) && old(model.pending[property].live))
      ensures model == Claim(old(model), property)
    {
      cancelled := property in model.pending && model.pending[property].live;
      if property in oldProperties {
        assert Filed(property);
        oldItem := oldProperties[property];
        CancelPrevious(oldItem);
        assert Filed(property);
        DropVariant(oldItem);
      } else {
        oldItem := InstallOldItem(property);
      }
    }

    method InstallOldItem(property: Name) returns (oldItem: OldItem)
      requires Valid() && property !in oldProperties
      modifies this`oldProperties, this`model, this`Repr
      ensures Valid() && fresh(Repr - old(Repr)) && Owns(oldItem) && oldItem.property == property
      ensures model == Claim(old(model), property)
    {
      oldItem := new OldItem(property, Lookup(properties, property), model.next);
      oldProperties := oldProperties[property := oldItem];
      Repr := Repr + {oldItem, oldItem.cancellable};
      model := Claim(model, property);
      forall c: Cancellable | c in pendingCalls ensures Waiting(c) && c != oldItem.cancellable {
        assert old(Waiting(c));
        assert old(Filed(pendingCalls[c].property));
      }
      forall p | p in oldProperties ensures Filed(p) {
        if p != property {
          assert old(Filed(p));
        }
      }
    }

    /** The call of the previous set is cancelled and its entry leaves `pending_calls`; the item
        goes on under a new cancellable. */
    method CancelPrevious(oldItem: OldItem)
      requires Valid() && Owns(oldItem)
      requires oldItem in Repr && oldItem.cancellable in Repr
      modifies this`pendingCalls, this`model, this`Repr, oldItem`cancellable, oldItem.cancellable
      ensures Valid() && fresh(Repr - old(Repr)) && oldProperties == old(oldProperties)
      ensures model == Cancel(old(model), oldItem.property)
      ensures old(oldItem.cancellable) != null && old(oldItem.cancellable).cancelled
    {
      ghost var property := oldItem.property;
      assert Filed(property);
      if !oldItem.cancellable.cancelled {
        oldItem.cancellable.cancelled := true;
        pendingCalls := pendingCalls - {oldItem.cancellable};
        oldItem.cancellable := new Cancellable(oldItem);
        Repr := Repr + {oldItem.cancellable};
      }
      model := Cancel(model, oldItem.property);
      forall c: Cancellable | c in pendingCalls ensures Waiting(c) && c != oldItem.cancellable {
        assert old(Waiting(c));
        assert old(Filed(pendingCalls[c].property));
      }
      forall p | p in oldProperties ensures Filed(p) {
        assert old(Filed(p));
      }
    }

    method DropVariant(oldItem: OldItem)
      requires Valid() && Owns(oldItem)
      modifies this`model, oldItem`variant
      ensures Valid()
      ensures var c, p := old(model), oldItem.property;
        model == c.(pending := c.pending[p := c.pending[p].(variant := None)])
    {
      oldItem.variant := None;
      var p := oldItem.property;
      model := model.(pending := model.pending[p := model.pending[p].(variant := None)]);
      forall c: Cancellable | c in pendingCalls ensures Waiting(c) {
        assert old(Waiting(c));
      }
      forall p | p in oldProperties ensures Filed(p) {
        assert old(Filed(p));
      }
    }

    /** The asynchronous call has been sent: one more callback is owed. */
    method FileCall(oldItem: OldItem, variant: Variant)
      requires Valid() && Owns(oldItem)
      modifies this`pendingCalls, this`model, oldItem`variant, oldItem`count
      ensures Valid() && model == Owe(old(model), oldItem.property, variant)
    {
      assert Filed(oldItem.property);
      oldItem.variant := Some(variant);
      oldItem.count := oldItem.count + 1;
      pendingCalls := pendingCalls[oldItem.cancellable := oldItem];
      model := Owe(model, oldItem.property, variant);
      forall c: Cancellable | c in pendingCalls ensures Waiting(c) {
        assert c == oldItem.cancellable || old(Waiting(c));
      }
      forall p | p in oldProperties ensures Filed(p) {
        assert old(Filed(p));
      }
    }

    // ---------- signals ----------

    method HandlePropertyChanged(property: Name, variant: Variant) returns (emitted: Option<Emission>)
      requires Valid()
      modifies this`properties, this`model
      ensures Valid() && model == Changed(old(model), property, FromVariant(variant))
      ensures emitted == ChangedEmission(old(model), property, FromVariant(variant))
      ensures Told(old(properties), properties, emitted)
    {
      ChangedTells(model, property, FromVariant(variant));
      var value := GVariantToGValue(variant);
      if property in oldProperties {
        return None;
      }
      var changed := true;
      if property in properties {
        changed := !IsEqual(Some(properties[property]), Some(value));
      }
      if changed {
        PutProperties(properties[property := value]);
        emitted := Some(Emission(property, Some(value)));
      } else {
        emitted := None;
      }
    }

    method HandlePropertyRemoved(property: Name) returns (emitted: Emission)
      requires Valid()
      modifies this`properties, this`model
      ensures Valid() && model == Removed(old(model), property)
      ensures emitted == Emission(property, None) && Told(old(properties), properties, Some(emitted))
    {
      PutProperties(properties - {property});
      emitted := Emission(property, None);
    }

    // ---------- reset and prefetch ----------

    method Reset(base: Name, recursive: bool, ok: bool) returns (ret: bool)
      requires Valid()
      modifies this`properties, this`model
      ensures Valid() && model == AfterReset(old(model), base, recursive, ok)
      ensures ret == ok
      ensures forall p ::
        Lookup(properties, p) == if ok && Evicted(base, recursive, p) then None else Lookup(old(properties), p)
    {
      ret := ok;
      if ret {
        var evicted := set p | p in properties && Evicted(base, recursive, p);
        PutProperties(properties - evicted);
      }
    }

    method Prefetch(all: Option<map<Name, Value>>) returns (ret: bool)
      requires Valid()
      modifies this`properties, this`model
      ensures Valid() && model == AfterPrefetch(old(model), all)
      ensures ret == (old(properties) == map[] && all.Some?)
      ensures properties == if ret then all.value else old(properties)
    {
      if properties != map[] {
        return false;
      }
      if all.Some? {
        PutProperties(all.value);
      }
      ret := all.Some?;
    }

    // ---------- finalize ----------

    /** Every call still pending is repeated synchronously with the variant sent last, and its
        cancellable is cancelled so that its late callbacks know; the items are left to them. */
    method Finalize() returns (sent: map<Name, Option<Variant>>)
      requires Valid()
      modifies this, pendingCalls.Keys
      ensures sent == FinalCalls(old(model))
      ensures properties == map[] && pendingCalls == map[] && oldProperties == map[]
      ensures forall p :: p in old(oldProperties) ==> LeftBehind(old(oldProperties)[p], old(model).pending[p])
      ensures forall p :: p in old(oldProperties) && old(model).pending[p].live ==>
        old(oldProperties)[p].cancellable in old(pendingCalls)
    {
      ItemsAreFiled();
      sent := RepeatCalls();
      CancelPending();
      pendingCalls := map[];
      properties := map[];
      oldProperties := map[];
    }

    /** The loop over `pending_calls` with `esconf_cache_old_item_end_call` as its body: the calls, */
    method RepeatCalls() returns (sent: map<Name, Option<Variant>>)
      requires Valid()
      ensures sent == FinalCalls(model)
    {
      PendingCallsAreDue();
      sent := map c: Cancellable | c in pendingCalls :: pendingCalls[c].property := pendingCalls[c].variant;
    }

    /** and the cancellations. */
    method CancelPending()
      modifies pendingCalls.Keys
      ensures forall c: Cancellable :: c in pendingCalls ==> c.cancelled
    {
      forall c: Cancellable | c in pendingCalls {
        c.cancelled := true;
      }
    }

    lemma ItemsAreFiled()
      requires Valid()
      ensures forall p :: p in oldProperties ==>
        var o := oldProperties[p];
        && o.cancellable != null && o.frees == 0 && o.count == model.pending[p].count
        && !o.cancellable.cancelled && (o.cancellable in pendingCalls <==> model.pending[p].live)
    {
      forall p | p in oldProperties
        ensures Filed(p)
      {
      }
    }

    /** What `pending_calls` holds is exactly what finalization owes, one entry for a property. */
    lemma PendingCallsAreDue()
      requires Valid()
      ensures forall c: Cancellable :: c in pendingCalls ==>
        && pendingCalls[c].property in FinalCalls(model)
        && pendingCalls[c].variant == FinalCalls(model)[pendingCalls[c].property]
      ensures forall c, d: Cancellable :: c in pendingCalls && d in pendingCalls ==>
        (pendingCalls[c].property == pendingCalls[d].property ==> c == d)
      ensures forall p :: p in FinalCalls(model) ==>
        exists c: Cancellable :: c in pendingCalls && pendingCalls[c].property == p
    {
      forall c: Cancellable | c in pendingCalls
        ensures Waiting(c) && Filed(pendingCalls[c].property)
      {
      }
      forall p | p in FinalCalls(model)
        ensures exists c: Cancellable :: c in pendingCalls && pendingCalls[c].property == p
      {
        assert Filed(p);
        var c: Cancellable := oldProperties[p].cancellable;
        assert c in pendingCalls && Waiting(c) && Filed(pendingCalls[c].property);
      }
    }

    // ---------- replies ----------

    /** A callback that is not the last one owed to its item only counts. */
    method CountDownItem(oldItem: OldItem)
      requires Valid() && Owns(oldItem)
      modifies this`model, oldItem`count
      ensures Valid() && model == CountDown(old(model), oldItem.property)
      ensures oldItem.count == old(oldItem.count) - 1
    {
      oldItem.count := oldItem.count - 1;
      model := CountDown(model, oldItem.property);
      forall c: Cancellable | c in pendingCalls ensures Waiting(c) {
        assert old(Waiting(c));
      }
      forall p | p in oldProperties ensures Filed(p) {
        assert old(Filed(p));
      }
    }

    /** Takes a finished burst out of both tables; a failed one puts the pre-burst value back. */
    method CloseBurst(oldItem: OldItem, ok: bool) returns (found: bool, emitted: Option<Emission>)
      requires Valid() && Owns(oldItem)
      modifies this`pendingCalls, this`oldProperties, this`properties, this`model, this`Repr
      ensures Valid() && model == Close(old(model), oldItem.property, ok)
      ensures oldItem !in Repr && oldItem.cancellable !in Repr && Repr <= old(Repr)
      ensures oldItem !in pendingCalls.Values
      ensures found == (oldItem.property in old(properties))
      ensures emitted == if found && !ok then Some(Emission(oldItem.property, Lookup(model.props, oldItem.property))) else None
    {
      var property := oldItem.property;
      Unfile(oldItem);
      emitted := None;
      found := property in properties;
      if found && !ok {
        if oldItem.item.Some? {
          if !IsEqual(Some(properties[property]), Some(oldItem.item.value)) {
            PutProperties(properties[property := oldItem.item.value]);
          }
          emitted := Some(Emission(property, Some(properties[property])));
        } else {
          PutProperties(properties - {property});
          emitted := Some(Emission(property, None));
        }
      }
    }

    method Unfile(oldItem: OldItem)
      requires Valid() && Owns(oldItem)
      modifies this`pendingCalls, this`oldProperties, this`model, this`Repr
      ensures Valid() && model == old(model).(pending := old(model.pending) - {oldItem.property})
      ensures oldItem !in Repr && oldItem.cancellable !in Repr && Repr <= old(Repr)
      ensures oldItem !in pendingCalls.Values
      ensures old(model.pending)[oldItem.property].item == oldItem.item
    {
      var property := oldItem.property;
      assert Filed(property);
      oldProperties := oldProperties - {property};
      pendingCalls := pendingCalls - {oldItem.cancellable};
      Repr := Repr - {oldItem, oldItem.cancellable};
      model := model.(pending := model.pending - {property});
      forall c: Cancellable | c in pendingCalls ensures Waiting(c) {
        assert old(Waiting(c));
      }
      forall p | p in oldProperties ensures Filed(p) {
        assert old(Filed(p));
      }
    }
  }

  /** The reply callback.  It reaches its item through the user data of the call, so it must decide
      from the item alone whether the cache still exists. */
  method SetPropertyReplyHandler(cache: EsconfCache, oldItem: OldItem, ok: bool)
    returns (emitted: Option<Emission>, ghost fate: Fate)
    requires oldItem.cancellable != null && oldItem.count >= 1 && oldItem.frees == 0
    requires !oldItem.cancellable.cancelled ==>
      cache.Valid() && cache.Owns(oldItem)
    modifies cache, oldItem, oldItem.cancellable
    ensures oldItem.count == old(oldItem.count) - 1
    ensures oldItem.frees == if fate.Freed? then 1 else 0
    ensures fate.Freed? ==> oldItem.count == 0
    ensures old(oldItem.cancellable.cancelled) ==>
      && unchanged(cache) && emitted == None
      && oldItem.cancellable == old(oldItem.cancellable) && old(oldItem.cancellable).cancelled
      && fate == if oldItem.count == 0 then Freed else Counted
    ensures !old(oldItem.cancellable.cancelled) ==>
      && cache.Valid()
      && cache.model == Replied(old(cache.model), oldItem.property, ok)
      && fate == ReplyFate(old(cache.model), oldItem.property)
      && emitted == ReplyEmission(old(cache.model), oldItem.property, ok)
      && Told(old(cache.properties), cache.properties, emitted)
  {
    emitted := None;
    if !oldItem.cancellable.cancelled {
      assert cache.Filed(oldItem.property);
    }
    if oldItem.count > 1 {
      if oldItem.cancellable.cancelled {
        oldItem.count := oldItem.count - 1;
      } else {
        cache.CountDownItem(oldItem);
      }
      return emitted, Counted;
    }
    if oldItem.cancellable.cancelled {
      oldItem.count := oldItem.count - 1;
      oldItem.Free();
      return emitted, Freed;
    }
    var found;
    found, emitted := cache.CloseBurst(oldItem, ok);
    oldItem.count := oldItem.count - 1;
    if !found {
      return emitted, Leaked;
    }
    oldItem.cancellable.cancelled := true;
    oldItem.Free();
    fate := Freed;
  }
}
