/**
 * The persistent-state mirror `useLocalStorageState` (src/exercise/02.js).
 *
 * The browser's key-value store is a `Storage` object whose table the hook
 * changes in place; the hook itself is a `Mirror` that keeps the component
 * state and the remembered previous key (`prevKeyRef.current`).  The
 * serialiser and deserialiser are parameters; a deserialiser that throws
 * is one that returns `None`.
 */
module LocalStorageState {
  import opened Wrappers

  /** The contents of the key-value store. */
  type Table = map<string, string>

  /** `getItem`: an absent key reads as `null`. */
  function Get(items: Table, key: string): (r: Option<string>)
    ensures r.Some? <==> key in items
    ensures r.Some? ==> r.value == items[key]
  {
    if key in items then Some(items[key]) else None
  }

  /** A key holds the same entry (or no entry) in both tables. */
  predicate SameEntry(a: Table, b: Table, k: string)
  {
    (k !in a && k !in b) || (k in a && k in b && a[k] == b[k])
  }

  /** What the lazy initialiser yields: the initial state and the store afterwards. */
  datatype Init<T> = Init(value: T, items: Table)

  /**
   * The lazy initialiser: a non-empty stored string that deserialises is
   * adopted; one that does not is removed and the default is used; a missing
   * or empty entry gives the default and is left alone.
   */
  function InitialRead<T>(items: Table, key: string, default: T, deserialize: string -> Option<T>): (r: Init<T>)
    ensures key in items && items[key] != "" && deserialize(items[key]).Some? ==>
              r.value == deserialize(items[key]).value && r.items == items
    ensures key in items && items[key] != "" && deserialize(items[key]).None? ==>
              r.value == default && key !in r.items
    ensures key !in items || items[key] == "" ==> r.value == default && r.items == items
    ensures r.items.Keys <= items.Keys
    ensures forall k :: k != key ==> SameEntry(items, r.items, k)
  {
    var stored := Get(items, key);
    if stored.Some? && stored.value != "" then
      match deserialize(stored.value)
      case Some(v) => Init(v, items)
      case None => Init(default, items - {key})
    else
      Init(default, items)
  }

  /**
   * The store after one run of the synchronising effect: the entry under a
   * previous key that differs from `key` is removed, then `text` is written
   * under `key`.
   */
  function SyncedStore(items: Table, prevKey: string, key: string, text: string): (r: Table)
    ensures key in r && r[key] == text
    ensures prevKey != key ==> prevKey !in r
    ensures r.Keys == (items.Keys - {prevKey}) + {key}
    ensures forall k :: k != key && k != prevKey ==> SameEntry(items, r, k)
  {
    var cleaned := if prevKey != key then items - {prevKey} else items;
    cleaned[key := text]
  }

  /** The keys a sequence of (key, serialised state) sync cycles writes under. */
  function Visited(cycles: seq<(string, string)>): set<string>
  {
    if cycles == [] then {} else {cycles[0].0} + Visited(cycles[1..])
  }

  /** The store after a sequence of sync cycles, each remembering its key as the next previous key. */
  function SyncAll(items: Table, prevKey: string, cycles: seq<(string, string)>): Table
    decreases |cycles|
  {
    if cycles == [] then items
    else SyncAll(SyncedStore(items, prevKey, cycles[0].0, cycles[0].1), cycles[0].0, cycles[1..])
  }

  /** Running the effect again with the same key and state changes nothing. */
  lemma SyncIdempotent(items: Table, prevKey: string, key: string, text: string)
    ensures SyncedStore(SyncedStore(items, prevKey, key, text), key, key, text) == SyncedStore(items, prevKey, key, text)
  {
  }

  /**
   * Round trip: if the state serialises to a non-empty string that
   * deserialises back to it, initialising after a sync under `key` yields the
   * synced state and leaves the store as the sync left it.
   */
  lemma SyncThenReadRoundTrip<T>(items: Table, prevKey: string, key: string, v: T, default: T,
                                 serialize: T -> string, deserialize: string -> Option<T>)
    requires deserialize(serialize(v)) == Some(v)
    requires serialize(v) != ""
    ensures InitialRead(SyncedStore(items, prevKey, key, serialize(v)), key, default, deserialize)
            == Init(v, SyncedStore(items, prevKey, key, serialize(v)))
  {
  }

  /**
   * After any number of sync cycles, the store holds the last cycle's text
   * under the last key, holds no entry under any earlier key (nor under the
   * key the hook started with) unless it is the last key, and agrees with the
   * original store on every key the hook never used.
   */
  lemma {:induction false} SyncAllKeepsOnlyCurrentKey(items: Table, prevKey: string, cycles: seq<(string, string)>)
    requires cycles != []
    ensures var r := SyncAll(items, prevKey, cycles);
            var last := cycles[|cycles| - 1];
            && last.0 in r && r[last.0] == last.1
            && r.Keys == (items.Keys - ({prevKey} + Visited(cycles))) + {last.0}
            && forall k :: k in r && k != last.0 ==> k in items && r[k] == items[k]
    decreases |cycles|
  {
    var first := SyncedStore(items, prevKey, cycles[0].0, cycles[0].1);
    if |cycles| == 1 {
      assert Visited(cycles) == {cycles[0].0};
    } else {
      var rest := cycles[1..];
      SyncAllKeepsOnlyCurrentKey(first, cycles[0].0, rest);
      assert rest[|rest| - 1] == cycles[|cycles| - 1];
      assert Visited(cycles) == {cycles[0].0} + Visited(rest);
    }
  }

  /** The browser's key-value store, changed in place. */
  class Storage {
    var items: Table

    constructor (initial: Table)
      ensures items == initial
    {
      items := initial;
    }

    method GetItem(key: string) returns (r: Option<string>)
      ensures r.Some? <==> key in items
      ensures r.Some? ==> r.value == items[key]
    {
      r := Get(items, key);
    }

    method SetItem(key: string, value: string)
      modifies this
      ensures items == old(items)[key := value]
    {
      items := items[key := value];
    }

    method RemoveItem(key: string)
      modifies this
      ensures items == old(items) - {key}
    {
      items := items - {key};
    }
  }

  /** One mounted `useLocalStorageState` hook: its state and its `prevKeyRef`. */
  class Mirror<T> {
    const storage: Storage
    const serialize: T -> string
    const deserialize: string -> Option<T>
    var prevKey: string
    var state: T

    /** Mounting: the lazy initialiser reads (and may clean) the store; `prevKeyRef` starts at `key`. */
    constructor (storage: Storage, key: string, default: T, serialize: T -> string, deserialize: string -> Option<T>)
      modifies storage
      ensures this.storage == storage && this.serialize == serialize && this.deserialize == deserialize
      ensures state == InitialRead(old(storage.items), key, default, deserialize).value
      ensures storage.items == InitialRead(old(storage.items), key, default, deserialize).items
      ensures prevKey == key
    {
      var initial := default;
      var stored := storage.GetItem(key);
      if stored.Some? && stored.value != "" {
        match deserialize(stored.value) {
          case Some(v) =>
            initial := v;
          case None =>
            storage.RemoveItem(key);
        }
      }
      this.storage := storage;
      this.serialize := serialize;
      this.deserialize := deserialize;
      prevKey := key;
      state := initial;
    }

    /** `setState`: replaces the state; the store is untouched until the next sync. */
    method SetState(v: T)
      modifies this
      ensures state == v && prevKey == old(prevKey)
    {
      state := v;
    }

    /** The synchronising effect for the current `key`. */
    method Sync(key: string)
      modifies this, storage
      ensures storage.items == SyncedStore(old(storage.items), old(prevKey), key, serialize(state))
      ensures prevKey == key && state == old(state)
      ensures key in storage.items && storage.items[key] == serialize(state)
    {
      var prev := prevKey;
      if prev != key {
        storage.RemoveItem(prev);
      }
      prevKey := key;
      storage.SetItem(key, serialize(state));
    }
  }
}
