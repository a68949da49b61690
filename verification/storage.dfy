/** The versioned store codec (`getFromStorage` / `setToStorage`): every value is
    kept under a key inside a `{version, data, timestamp}` envelope; a read
    discards, and deletes, whatever does not carry the current version tag.
    The browser's string store is an immutable map from key to raw entry. */
module Storage {
  import opened Wrappers

  /** The schema tag written into, and demanded of, every envelope. */
  const CurrentVersion: string := "v1"

  /** What a key of the backing store can hold, once its text has been parsed. */
  datatype Entry<V> =
    | Blank      // the empty string: falsy, so the read gives up before parsing
    | Malformed  // text that does not parse as JSON, or parses to `null`
    | Envelope(version: string, data: V, timestamp: int)

  type Store<V> = map<string, Entry<V>>

  /** An envelope the reader accepts. */
  predicate Current<V>(e: Entry<V>) {
    e.Envelope? && e.version == CurrentVersion
  }

  /** `a` and `b` hold the same thing (or nothing) under `k`. */
  ghost predicate SameAt<V>(a: Store<V>, b: Store<V>, k: string) {
    (k in a <==> k in b) && (k in a ==> a[k] == b[k])
  }

  /** A decoded value (`None` for JavaScript's `null`) and the store after the read. */
  datatype Read<V> = Read(value: Option<V>, store: Store<V>)

  /** `getFromStorage(key)`. An absent or blank key reads as nothing and is left
      alone; a malformed entry or an envelope of another version reads as
      nothing and is removed; a current envelope yields its data. No other key
      is touched. */
  function Get<V>(store: Store<V>, key: string): (r: Read<V>)
    ensures r.value.Some? <==> key in store && Current(store[key])
    ensures r.value.Some? ==> r.value.value == store[key].data
    ensures key in r.store <==> key in store && (store[key].Blank? || Current(store[key]))
    ensures key in r.store ==> r.store[key] == store[key]
    ensures forall k :: k != key ==> SameAt(r.store, store, k)
  {
    if key !in store then Read(None, store)
    else
      match store[key]
      case Blank => Read(None, store)
      case Malformed => Read(None, store - {key})
      case Envelope(version, data, _) =>
        if version != CurrentVersion then Read(None, store - {key})
        else Read(Some(data), store)
  }

  /** The environment of one `setToStorage` call: whether `localStorage.setItem`
      succeeds (it throws when the quota is exceeded), whether the broadcast
      channel can be opened, and the clock reading stamped into the envelope. */
  datatype Io = Io(writeOk: bool, channelOk: bool, now: int)

  /** A cross-tab notification `{key, value}`. */
  datatype Message<V> = Message(key: string, value: V)

  /** The store after a write, the notification sent (if any), and whether the
      user was alerted to a storage error. */
  datatype Write<V> = Write(store: Store<V>, sent: Option<Message<V>>, failed: bool)

  /** `setToStorage(key, value)`. A refused write leaves the store as it was;
      an accepted write replaces only `key`; the notification goes out only
      when both the write and the channel succeed, and every other case
      raises the storage alert. */
  function Set<V>(store: Store<V>, key: string, value: V, io: Io): (r: Write<V>)
    ensures io.writeOk ==> key in r.store && r.store[key] == Envelope(CurrentVersion, value, io.now)
    ensures !io.writeOk ==> r.store == store
    ensures forall k :: k != key ==> SameAt(r.store, store, k)
    ensures r.sent.Some? <==> io.writeOk && io.channelOk
    ensures r.sent.Some? ==> r.sent.value == Message(key, value)
    ensures r.failed <==> r.sent.None?
  {
    if !io.writeOk then Write(store, None, true)
    else
      var stored := store[key := Envelope(CurrentVersion, value, io.now)];
      if io.channelOk then Write(stored, Some(Message(key, value)), false)
      else Write(stored, None, true)
  }

  /** Round trip: after an accepted write, reading the key yields the written
      value and leaves the store as it is. */
  lemma GetAfterSet<V>(store: Store<V>, key: string, value: V, io: Io)
    requires io.writeOk
    ensures Get(Set(store, key, value, io).store, key) == Read(Some(value), Set(store, key, value, io).store)
  {
  }

  /** A write under one key does not change what a read of another key yields. */
  lemma GetOtherAfterSet<V>(store: Store<V>, key: string, other: string, value: V, io: Io)
    requires other != key
    ensures Get(Set(store, key, value, io).store, other).value == Get(store, other).value
  {
  }

  /** Reading is idempotent: a second read of the same key yields the same value
      and changes nothing further, whatever the first read discarded. */
  lemma GetIdempotent<V>(store: Store<V>, key: string)
    ensures Get(Get(store, key).store, key) == Read(Get(store, key).value, Get(store, key).store)
  {
  }
}
