/**
  The mobile app's storage context (mobile/hooks/StorageProvider.tsx): a
  key-value store behind `AsyncStorage` and a registry of change listeners
  per key. Callbacks are identified by value (`CallbackId`); calling one is
  recorded in `calls`, the order in which the provider invoked them.
  Storage failures are parameters of the calls that meet them.
*/
module StorageProvider {
  import opened Common

  datatype CallbackId = CallbackId(id: nat)

  type Registry = map<string, seq<CallbackId>>

  /** `listeners[key] || []` */
  function Of(l: Registry, key: string): seq<CallbackId> {
    if key in l then l[key] else []
  }

  /** The registry after `subscribe(key, cb)`. */
  function Subscribed(l: Registry, key: string, cb: CallbackId): (r: Registry)
    ensures Of(r, key) == Of(l, key) + [cb]
    ensures forall k :: k != key ==> Of(r, k) == Of(l, k)
  {
    l[key := Of(l, key) + [cb]]
  }

  predicate IsNot(cb: CallbackId, other: CallbackId) {
    other != cb
  }

  /** The registry after the unsubscribe function `subscribe(key, cb)` handed back is called. */
  function Unsubscribed(l: Registry, key: string, cb: CallbackId): (r: Registry)
    requires key in l
    ensures cb !in Of(r, key)
    ensures forall c :: c in Of(r, key) <==> c in Of(l, key) && c != cb
    ensures forall k :: k != key ==> Of(r, k) == Of(l, k)
  {
    l[key := Filter(l[key], (c: CallbackId) => IsNot(cb, c))]
  }

  /** How often `cb` occurs in `s`. */
  function Count(s: seq<CallbackId>, cb: CallbackId): nat {
    multiset(s)[cb]
  }

  /**
    A callback subscribed once under a key is called exactly once for each
    `setItem` of that key, and unsubscribing takes it off again, leaving
    every other subscription as it was.
  */
  lemma SubscribeThenUnsubscribe(l: Registry, key: string, cb: CallbackId)
    requires cb !in Of(l, key)
    ensures Count(Of(Subscribed(l, key, cb), key), cb) == 1
    ensures forall k :: Of(Unsubscribed(Subscribed(l, key, cb), key, cb), k) == Of(l, k)
  {
    SubscribedOnce(l, key, cb);
    SubscribeUndone(l, key, cb);
  }

  lemma SubscribedOnce(l: Registry, key: string, cb: CallbackId)
    requires cb !in Of(l, key)
    ensures Count(Of(Subscribed(l, key, cb), key), cb) == 1
  {
    var s := Of(l, key);
    assert multiset(s + [cb]) == multiset(s) + multiset{cb};
    assert multiset(s)[cb] == 0;
  }

  lemma SubscribeUndone(l: Registry, key: string, cb: CallbackId)
    requires cb !in Of(l, key)
    ensures forall k :: Of(Unsubscribed(Subscribed(l, key, cb), key, cb), k) == Of(l, k)
  {
    var s := Of(l, key);
    var m := Subscribed(l, key, cb);
    assert m[key] == s + [cb];
    FilterKeepsAll(s, (c: CallbackId) => IsNot(cb, c));
    FilterAppendDropped(s, cb);
    var r := Unsubscribed(m, key, cb);
    assert Of(r, key) == Filter(s + [cb], (c: CallbackId) => IsNot(cb, c));
  }

  lemma {:induction false} FilterAppendDropped(s: seq<CallbackId>, cb: CallbackId)
    ensures Filter(s + [cb], (c: CallbackId) => IsNot(cb, c)) == Filter(s, (c: CallbackId) => IsNot(cb, c))
  {
    if s == [] {
      assert [] + [cb] == [cb];
      assert [cb][1..] == [];
    } else {
      assert (s + [cb])[1..] == s[1..] + [cb];
      FilterAppendDropped(s[1..], cb);
    }
  }

  /** Unsubscribing keeps the key's other callbacks in their subscription order. */
  lemma {:induction false} UnsubscribeKeepsOrder(l: Registry, key: string, cb: CallbackId, a: CallbackId, b: CallbackId)
    requires key in l && a != cb && b != cb
    requires Of(l, key) == [a, cb, b]
    ensures Of(Unsubscribed(l, key, cb), key) == [a, b]
  {
    var p := (c: CallbackId) => IsNot(cb, c);
    var s := [a, cb, b];
    assert s[1..] == [cb, b] && s[1..][1..] == [b] && [b][1..] == [];
    calc {
      Filter(s, p);
      [a] + Filter([cb, b], p);
      [a] + Filter([b], p);
      [a] + [b];
    }
  }

  class Provider {
    /** What `AsyncStorage` holds. */
    var items: map<string, string>
    var listeners: Registry
    /** The callbacks invoked so far, in order. */
    var calls: seq<CallbackId>

    constructor()
      ensures items == map[] && listeners == map[] && calls == []
    {
      items := map[];
      listeners := map[];
      calls := [];
    }

    /** `subscribe(key, callback)`: appends the callback to the key's list. */
    method Subscribe(key: string, cb: CallbackId)
      modifies this
      ensures listeners == Subscribed(old(listeners), key, cb)
      ensures items == old(items) && calls == old(calls)
    {
      listeners := Subscribed(listeners, key, cb);
    }

    /** The unsubscribe function: drops every occurrence of the callback from the key's list. */
    method Unsubscribe(key: string, cb: CallbackId)
      requires key in listeners
      modifies this
      ensures listeners == Unsubscribed(old(listeners), key, cb)
      ensures items == old(items) && calls == old(calls)
    {
      listeners := Unsubscribed(listeners, key, cb);
    }

    /**
      `setItem(key, value)`: a failed write propagates its error and calls
      nobody; otherwise the value is stored and then each callback of the
      key is called once, in subscription order.
    */
    method SetItem(key: string, value: string, writeError: Option<string>) returns (r: Result<(), string>)
      modifies this
      ensures listeners == old(listeners)
      ensures writeError.Some? ==> r == Err(writeError.value) && items == old(items) && calls == old(calls)
      ensures writeError.None? ==> r == Ok(()) && items == old(items)[key := value]
                                   && calls == old(calls) + Of(old(listeners), key)
    {
      if writeError.Some? {
        return Err(writeError.value);
      }
      items := items[key := value];
      if key in listeners {
        var callbacks := listeners[key];
        for i := 0 to |callbacks|
          invariant items == old(items)[key := value] && listeners == old(listeners)
          invariant calls == old(calls) + callbacks[..i]
        {
          calls := calls + [callbacks[i]];
        }
        assert callbacks[..|callbacks|] == callbacks;
      }
      r := Ok(());
    }

    /** `getItem(key)`: the stored value, `null` when there is none; a failed read propagates. */
    method GetItem(key: string, readError: Option<string>) returns (r: Result<Option<string>, string>)
      ensures readError.Some? ==> r == Err(readError.value)
      ensures readError.None? ==> r == Ok(if key in items then Some(items[key]) else None)
    {
      if readError.Some? {
        return Err(readError.value);
      }
      r := Ok(if key in items then Some(items[key]) else None);
    }
  }
}
