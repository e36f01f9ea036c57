/** The `useLocalStorage` hook (src/hooks/useLocalStorage.ts): a value loaded
    once from durable storage, updated in memory at once, and written back by a
    single debounced timer that every update cancels and re-arms and that
    teardown cancels without flushing.

    Durable storage is a map from key to `Record<T>`; serialisation itself
    (`JSON.stringify` / `JSON.parse`) is not modelled beyond "a record either
    parses to a value or it does not". The one-second delay is not modelled:
    the timer elapsing is the explicit step `Fire`. */
module LocalStorage {
  import opened Collections

  /** What `getItem` hands back for a present key, as the loader sees it: the
      serialisation of a value, or text that is falsy (the empty string) or
      that `JSON.parse` rejects. Both kinds of text fall back to the default. */
  datatype Record<T> = Json(value: T) | Malformed(text: string)

  /** The hook's observable state: the in-memory value (`storedValue`), the
      single pending-write slot (the timer held in `timeoutRef`, carrying the
      value it will write) and the durable records. */
  datatype StoreState<T> = StoreState(value: T, pending: Option<T>, records: map<string, Record<T>>)

  /** `getStoredValue`: the parsed record under `key`, or `initial` when the key
      is absent, the record is empty or unparsable, or storage cannot be read. */
  function Load<T>(available: bool, records: map<string, Record<T>>, key: string, initial: T): (v: T)
    ensures !available ==> v == initial
    ensures key !in records ==> v == initial
    ensures key in records && records[key].Malformed? ==> v == initial
    ensures available && key in records && records[key].Json? ==> v == records[key].value
  {
    if available && key in records && records[key].Json? then records[key].value else initial
  }

  /** The state right after mounting: loaded value, nothing pending. */
  function Mounted<T>(available: bool, records: map<string, Record<T>>, key: string, initial: T): (r: StoreState<T>)
    ensures r.pending.None? && r.records == records
    ensures r.value == initial || (key in records && records[key].Json? && r.value == records[key].value)
  {
    StoreState(Load(available, records, key, initial), None, records)
  }

  /** `setValue(v)` with a plain value: the value changes at once, and the
      previous timer is replaced by one that will write `v`. */
  function AfterSet<T>(st: StoreState<T>, v: T): (r: StoreState<T>)
    ensures r.value == v && r.pending == Some(v)
    ensures r.records == st.records
  {
    st.(value := v, pending := Some(v))
  }

  /** `setValue(f)` with an updater: `f` is applied to `snapshot`, the
      `storedValue` that this `setValue` instance closed over, not to a queued
      latest value. `None` stands for `f` throwing: the exception is caught
      before anything is changed, so the old timer stays armed. */
  function AfterUpdate<T>(st: StoreState<T>, snapshot: T, f: T -> Option<T>): (r: StoreState<T>)
    ensures r.records == st.records
    ensures f(snapshot).None? ==> r == st
    ensures f(snapshot).Some? ==> r.value == f(snapshot).value && r.pending == Some(r.value)
  {
    match f(snapshot)
    case None => st
    case Some(v) => AfterSet(st, v)
  }

  /** The armed timer elapses: it writes its value under `key` (when storage
      accepts writes; a failing `setItem` throws inside the timer and writes
      nothing) and is spent. With no timer armed nothing happens. */
  function AfterFire<T>(st: StoreState<T>, key: string, available: bool): (r: StoreState<T>)
    ensures r.value == st.value && r.pending.None?
    ensures r.records.Keys <= st.records.Keys + {key}
    ensures forall k :: k != key && k in st.records ==> k in r.records && r.records[k] == st.records[k]
  {
    match st.pending
    case None => st
    case Some(v) => st.(pending := None, records := if available then st.records[key := Json(v)] else st.records)
  }

  /** Unmount cleanup: the armed timer is cleared, not flushed. */
  function AfterTeardown<T>(st: StoreState<T>): (r: StoreState<T>)
    ensures r.value == st.value && r.records == st.records && r.pending.None?
  {
    st.(pending := None)
  }

  /** A burst of plain `setValue` calls, in order, with no timer elapsing. */
  function AfterSetAll<T>(st: StoreState<T>, vs: seq<T>): StoreState<T>
    decreases |vs|
  {
    if vs == [] then st else AfterSetAll(AfterSet(st, vs[0]), vs[1..])
  }

  /** Coalescing: after a burst of updates the value is the last one, exactly
      one write is pending and it carries that last value, and storage has not
      been touched. */
  lemma {:induction false} SetAllCoalesces<T>(st: StoreState<T>, vs: seq<T>)
    requires |vs| > 0
    ensures AfterSetAll(st, vs) == StoreState(vs[|vs| - 1], Some(vs[|vs| - 1]), st.records)
    decreases |vs|
  {
    if |vs| > 1 {
      SetAllCoalesces(AfterSet(st, vs[0]), vs[1..]);
    }
  }

  /** A burst followed by the timer elapsing yields a single durable write,
      holding only the last value; a further elapse writes nothing more. */
  lemma CoalescedWrite<T>(st: StoreState<T>, vs: seq<T>, key: string)
    requires |vs| > 0
    ensures AfterFire(AfterSetAll(st, vs), key, true).records == st.records[key := Json(vs[|vs| - 1])]
    ensures AfterFire(AfterFire(AfterSetAll(st, vs), key, true), key, true)
         == AfterFire(AfterSetAll(st, vs), key, true)
  {
    SetAllCoalesces(st, vs);
  }

  /** Round trip: once the write for `v` has landed, a fresh load returns `v`. */
  lemma WriteThenReload<T>(st: StoreState<T>, v: T, key: string, initial: T)
    ensures Load(true, AfterFire(AfterSet(st, v), key, true).records, key, initial) == v
  {
  }

  /** Teardown inside the debounce window loses the pending write: a timer
      that would have elapsed afterwards writes nothing. */
  lemma TeardownDropsPendingWrite<T>(st: StoreState<T>, key: string, available: bool)
    ensures AfterFire(AfterTeardown(st), key, available).records == st.records
    ensures AfterTeardown(st).value == st.value
  {
  }

  /** An updater that throws does not cancel the write already armed: when
      the timer elapses it still writes the earlier value, which is also the
      value in memory. */
  lemma ThrowingUpdaterKeepsPendingWrite<T>(st: StoreState<T>, v: T, snapshot: T, f: T -> Option<T>, key: string)
    requires f(snapshot).None?
    ensures var after := AfterFire(AfterUpdate(AfterSet(st, v), snapshot, f), key, true);
            after.value == v && after.records == st.records[key := Json(v)]
  {
  }

  /** Two updaters issued through the same `setValue` instance both start from
      its snapshot, so the second result replaces the first instead of
      building on it. */
  lemma SameSnapshotUpdatesDoNotCompose<T>(st: StoreState<T>, snapshot: T, f: T -> Option<T>, g: T -> Option<T>)
    requires f(snapshot).Some? && g(snapshot).Some?
    ensures AfterUpdate(AfterUpdate(st, snapshot, f), snapshot, g) == AfterSet(st, g(snapshot).value)
  {
  }

  /** The hook instance for one key. */
  class Store<T> {
    const key: string
    const initial: T
    /** Whether `localStorage` can be read and written at all. */
    const available: bool
    var value: T
    var pending: Option<T>
    var records: map<string, Record<T>>

    function State(): StoreState<T>
      reads this
    {
      StoreState(value, pending, records)
    }

    /** Mounting: `useState(getStoredValue)` with no timer armed. */
    constructor (key: string, initial: T, available: bool, records: map<string, Record<T>>)
      ensures this.key == key && this.initial == initial && this.available == available
      ensures State() == Mounted(available, records, key, initial)
    {
      this.key := key;
      this.initial := initial;
      this.available := available;
      value := Load(available, records, key, initial);
      pending := None;
      this.records := records;
    }

    /** `setValue(v)` with a plain value. */
    method Set(v: T)
      modifies this
      ensures State() == AfterSet(old(State()), v)
    {
      value := v;
      pending := Some(v);
    }

    /** `setValue(f)` through the instance whose closure holds `snapshot`. */
    method Update(snapshot: T, f: T -> Option<T>)
      modifies this
      ensures State() == AfterUpdate(old(State()), snapshot, f)
    {
      var next := f(snapshot);
      if next.Some? {
        value := next.value;
        pending := Some(next.value);
      }
    }

    /** The debounce timer elapses. */
    method Fire()
      modifies this
      ensures State() == AfterFire(old(State()), key, available)
    {
      if pending.Some? {
        if available {
          records := records[key := Json(pending.value)];
        }
        pending := None;
      }
    }

    /** The unmount cleanup effect. */
    method Teardown()
      modifies this
      ensures State() == AfterTeardown(old(State()))
    {
      pending := None;
    }
  }
}
