/**
 * The history store of the calculator: the in-memory history and its
 * persisted copy under the single storage key. It is filled from storage when
 * the component mounts, grows by one entry on every copy and is emptied,
 * together with the stored copy, on "clear all".
 */
module Store {
  import opened Wrappers
  import opened Converter
  import opened History

  /**
   * What the storage key can hold: the serialized form of a list of entries,
   * or text that does not parse back into one.
   */
  datatype Blob = Serialized(entries: seq<Entry>) | Malformed(text: string)

  /** Writing a history to the storage key. */
  function Serialize(h: seq<Entry>): (b: Blob)
    ensures Parse(b) == Some(h)
  {
    Serialized(h)
  }

  /** Reading the storage key back; malformed text gives no history. */
  function Parse(b: Blob): (r: Option<seq<Entry>>)
    ensures r.None? <==> b.Malformed?
  {
    match b
    case Serialized(es) => Some(es)
    case Malformed(_) => None
  }

  /**
   * The history installed at mount time from what the key holds: the stored
   * list when there is one that parses, otherwise the initial empty history.
   */
  function Load(stored: Option<Blob>): (h: seq<Entry>)
    ensures stored.None? ==> h == []
    ensures stored.Some? && Parse(stored.value).None? ==> h == []
    ensures forall es :: stored == Some(Serialize(es)) ==> h == es
  {
    match stored
    case None => []
    case Some(b) => Parse(b).GetOr([])
  }

  /** What a copy writes to the key reloads to exactly the history it wrote. */
  lemma SavedReloads(h: seq<Entry>)
    ensures Load(Some(Serialize(h))) == h
  {
  }

  class HistoryStore {
    /** The component's `history` state, newest first. */
    var entries: seq<Entry>
    /** The storage key holding the persisted history, absent when removed. */
    var saved: Option<Blob>

    /**
     * The persisted copy reloads to the history in memory. This is a property
     * every operation is proved to establish, not a precondition any of them
     * relies on: `Commit` and `Clear` establish it from any state.
     */
    ghost predicate Valid()
      reads this
    {
      Load(saved) == entries
    }

    /** Mounting: start from the empty history and install the stored one when it parses. */
    constructor Mount(stored: Option<Blob>)
      ensures Valid()
      ensures saved == stored
      ensures stored.None? ==> entries == []
      ensures stored.Some? && Parse(stored.value).None? ==> entries == []
      ensures stored.Some? && Parse(stored.value).Some? ==> entries == Parse(stored.value).value
    {
      var initial: seq<Entry> := [];
      if stored.Some? {
        var parsed := Parse(stored.value);
        if parsed.Some? {
          initial := parsed.value;
        }
      }
      entries := initial;
      saved := stored;
    }

    /**
     * Copying a result: record an entry for the current input, direction and
     * displayed result, put it in front, keep the ten newest and persist them.
     * The clock reading `id` and the time text `timestamp` come from the caller.
     */
    method Commit(from: Input, d: Direction, id: int, timestamp: string)
      modifies this
      ensures Valid()
      ensures entries == Push(NewEntry(id, from, d, timestamp), old(entries))
      ensures |entries| == if |old(entries)| < Capacity then |old(entries)| + 1 else Capacity
      ensures entries[0] == NewEntry(id, from, d, timestamp)
      ensures saved == Some(Serialize(entries))
    {
      var entry := NewEntry(id, from, d, timestamp);
      var updated := Push(entry, entries);
      entries := updated;
      saved := Some(Serialize(updated));
      SavedReloads(updated);
    }

    /** "Clear all": empty the history and remove the storage key. */
    method Clear()
      modifies this
      ensures Valid()
      ensures entries == [] && saved == None
    {
      entries := [];
      saved := None;
    }
  }

  /**
   * A session that mounts from whatever storage holds, copies one result,
   * clears, and mounts again from what is then stored: the reloaded history
   * is empty.
   */
  method ReloadAfterClear(stored: Option<Blob>, from: Input, d: Direction, id: int, timestamp: string)
    returns (reloaded: seq<Entry>)
    ensures reloaded == []
  {
    var store := new HistoryStore.Mount(stored);
    store.Commit(from, d, id, timestamp);
    store.Clear();
    var again := new HistoryStore.Mount(store.saved);
    reloaded := again.entries;
  }

  /**
   * A session that mounts from whatever storage holds and copies one result,
   * then mounts again from what is then stored: the reloaded history starts
   * with that copy, which loads back to the same input and direction.
   */
  method ReloadAfterCommit(stored: Option<Blob>, from: Input, d: Direction, id: int, timestamp: string)
    returns (reloaded: seq<Entry>)
    ensures reloaded == Push(NewEntry(id, from, d, timestamp), Load(stored))
    ensures |reloaded| >= 1 && reloaded[0] == NewEntry(id, from, d, timestamp)
    ensures Restore(reloaded[0]) == (from, d)
    ensures reloaded[0].to == Display(from, d)
  {
    var store := new HistoryStore.Mount(stored);
    store.Commit(from, d, id, timestamp);
    var again := new HistoryStore.Mount(store.saved);
    reloaded := again.entries;
    RestoreNewEntry(id, from, d, timestamp);
  }
}
